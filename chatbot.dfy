/** `get_response(user_input)`: route the utterance, then answer from the
    info table, the menu, a fixed line or the FAQ table. The three tables are
    inputs, as are the NLTK toolkit, the similarity scoring and the random
    draw of the menu recommendation. */
module Chatbot {
  import opened Text
  import opened Replies
  import opened Preprocess
  import opened GeneralInfo
  import opened Menu
  import opened Faq
  import opened Router

  /** The data read from `faqs.csv`, `info.csv` and `menu.csv`. */
  datatype Tables = Tables(faqs: seq<FaqEntry>, info: seq<VenueInfo>, menu: seq<MenuItem>)

  const OutdoorSeatingMessage := "We do " + "not offer outdoor seating."

  /** `get_response(user_input)`. A turn fails only when the route reads a
      degenerate table: an empty info table for the four info intents, an
      empty menu for a general recommendation, a menu whose rows have no
      category text for the cocktail recommendation (an empty menu gives the
      apology there instead), an empty FAQ table for the fallback. */
  function GetResponse(userInput: string, tables: Tables, kit: Toolkit, similarity: Similarity, draw: nat): (r: Reply)
    ensures r == Failure(MissingInfoRow)
        <==> tables.info == [] && Route(userInput) in {Hours, Contact, Location, Website}
    ensures r == Failure(EmptySample) <==> tables.menu == [] && Route(userInput) == MenuGeneral
    ensures r == Failure(CategoryNotText)
        <==> CategoryColumnNotText(tables.menu) && Route(userInput) == MenuCategory("Cocktails")
    ensures r == Failure(EmptyVocabulary) <==> tables.faqs == [] && Route(userInput) == Unmatched
  {
    match Route(userInput)
    case Hours => GetGeneralInfo("hours", tables.info)
    case Contact => GetGeneralInfo("contact", tables.info)
    case Location => GetGeneralInfo("location", tables.info)
    case Website => GetGeneralInfo("website", tables.info)
    case MenuCategory(category) => GetMenuItemRecommendation(tables.menu, Some(category), draw)
    case MenuGeneral => GetMenuItemRecommendation(tables.menu, None, draw)
    case OutdoorSeating => Answer(OutdoorSeatingMessage)
    case Unmatched => GetClosestFaq(userInput, tables.faqs, kit, similarity)
  }

  /** "hours" or "open" anywhere gives the opening hours, whatever else the
      input says; the source still reads the info table first, so an empty
      one raises. */
  lemma HoursAnswered(userInput: string, tables: Tables, kit: Toolkit, similarity: Similarity, draw: nat)
    requires Contains(Lower(userInput), "hours") || Contains(Lower(userInput), "open")
    ensures GetResponse(userInput, tables, kit, similarity, draw)
         == if tables.info == [] then Failure(MissingInfoRow) else Answer(HoursMessage)
  {
  }

  /** "phone", with neither "hours" nor "open", gives the phone number of
      the first info row. */
  lemma PhoneAnswered(userInput: string, tables: Tables, kit: Toolkit, similarity: Similarity, draw: nat)
    requires tables.info != []
    requires Contains(Lower(userInput), "phone")
    requires !Contains(Lower(userInput), "hours") && !Contains(Lower(userInput), "open")
    ensures GetResponse(userInput, tables, kit, similarity, draw) == Answer(ContactPrefix + tables.info[0].phone)
  {
  }

  /** With no keyword in the lower-cased input, the answer is the FAQ
      lookup on the input as typed (not lower-cased). */
  lemma NoKeywordGoesToFaq(userInput: string, tables: Tables, kit: Toolkit, similarity: Similarity, draw: nat)
    requires forall k :: k in RouteKeywords ==> !Contains(Lower(userInput), k)
    ensures GetResponse(userInput, tables, kit, similarity, draw)
         == GetClosestFaq(userInput, tables.faqs, kit, similarity)
  {
    UnmatchedIffNoKeyword(userInput);
    assert Route(userInput) == Unmatched;
  }

  /** An input that mentions outdoor seating never receives the
      outdoor-seating line: the rule for it is shadowed by "eat", and no
      earlier rule's answer is that line. */
  lemma OutdoorSeatingLineNeverSent(userInput: string, tables: Tables, kit: Toolkit, similarity: Similarity, draw: nat)
    requires Contains(Lower(userInput), "outdoor seating")
    ensures GetResponse(userInput, tables, kit, similarity, draw) != Answer(OutdoorSeatingMessage)
  {
    OutdoorSeatingRoutedEarlier(userInput);
    var r := GetResponse(userInput, tables, kit, similarity, draw);
    match Route(userInput)
    case Hours =>
      assert HoursMessage[2] != OutdoorSeatingMessage[2];
    case MenuCategory(_) =>
      if r.Answer? && r != Answer(NoItemsMessage) {
        var item :| r == Answer(Recommendation(item));
        assert r.text[0] == 'H';
      }
    case MenuGeneral =>
      if r.Answer? && r != Answer(NoItemsMessage) {
        var item :| r == Answer(Recommendation(item));
        assert r.text[0] == 'H';
      }
    case _ =>
  }

  /** With every table non-empty and some menu row categorised, every
      utterance gets a text answer in the
      model, where only an empty FAQ table fails to fit the vectoriser. */
  lemma AlwaysAnswered(userInput: string, tables: Tables, kit: Toolkit, similarity: Similarity, draw: nat)
    requires tables.faqs != [] && tables.info != [] && tables.menu != []
    requires exists item :: item in tables.menu && item.category.Some?
    ensures GetResponse(userInput, tables, kit, similarity, draw).Answer?
  {
  }

  /** Two inputs equal up to case get the same structured answer; only the
      FAQ lookup sees the input as typed. */
  lemma StructuredAnswersIgnoreCase(a: string, b: string, tables: Tables, kit: Toolkit, similarity: Similarity, draw: nat)
    requires Lower(a) == Lower(b)
    requires Route(a) != Unmatched
    ensures GetResponse(a, tables, kit, similarity, draw) == GetResponse(b, tables, kit, similarity, draw)
  {
  }
}
