/** What one turn of the chatbot produces: the text shown to the user, or
    the exception that the turn raises instead. */
module Replies {

  /** The exceptions the answering code can raise on degenerate tables. */
  datatype Fault =
    | MissingInfoRow    // `info_df.iloc[0]` on an info table with no rows: IndexError
    | EmptySample       // `sample()` on a menu with no rows: ValueError
    | CategoryNotText   // `.str` on a Category column holding no text at all: AttributeError
    | EmptyVocabulary   // fitting the TF-IDF vectoriser on no FAQ questions: ValueError

  datatype Reply = Answer(text: string) | Failure(fault: Fault)
}
