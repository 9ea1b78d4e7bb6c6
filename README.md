# Sweet Georgia's Juke Joint chatbot: routing and answer selection in Dafny

This project models the answering logic of a small venue chatbot
(`basicChatbot.py`). A user utterance is lower-cased and run through an
ordered cascade of keyword tests. The first keyword that occurs picks a
structured answer: opening hours, contact phone, address, website, a
cocktail recommendation, a general menu recommendation, or the
outdoor-seating line. When no keyword occurs, the utterance goes to the FAQ
lookup. That lookup normalises the question and every stored FAQ question,
takes the first best-scoring FAQ, and answers with it only when its score is
above 0.1; otherwise it apologises.

Everything is modelled as pure functions over strings and sequences, one
module per concern:

- `Text` (`text.dfy`): `str.lower()`, the substring test `p in s`,
  `str.isalpha()`, `' '.join` and `str.split(' ')`, with their laws: lower-casing
  is idempotent, the scan finds `p` exactly when `p` occurs at some offset,
  containment is transitive, and splitting a join gives back the words.
- `Preprocess` (`preprocess.dfy`): `preprocess_text`. The NLTK tokeniser,
  stop-word set and lemmatiser are inputs (a `Toolkit` value).
- `GeneralInfo` (`general_info.dfy`): `get_general_info`, over the info table
  as a sequence of `VenueInfo` rows.
- `Menu` (`menu.dfy`): `get_menu_item_recommendation`. The row `sample()`
  draws is an input `draw`: the row taken is `draw` modulo the number of
  candidate rows.
- `Faq` (`faq.dfy`): `get_closest_faq`. TF-IDF and cosine similarity are an
  input `similarity(corpus, query, i)`. The `np.argmax` choice and the 0.1
  threshold are modelled exactly.
- `Router` (`router.dfy`): the keyword cascade of `get_response`, as the
  source writes it (`RouteLowered`), and the same cascade as an ordered rule
  list (`Rules`, `FirstMatch`), with a proof that the two agree.
- `Chatbot` (`chatbot.dfy`): `get_response`, combining the above.
- `Replies` (`replies.dfy`): a turn yields `Answer(text)` or
  `Failure(fault)`. A failure stands for the exception the source raises on a
  degenerate table: no info row (`IndexError`), no menu row to sample
  (`ValueError`), a menu Category column with no text in any row
  (`AttributeError`), or no FAQ question to fit (`ValueError`).

Two behaviours of the code are worth knowing, and the model keeps both:

- The branch at basicChatbot.py:81-82 exists to answer questions about
  outdoor seating, but "seating" contains "eat", so the menu rule at
  basicChatbot.py:79 fires first. That branch can never be taken
  (`Router.OutdoorSeatingUnreachable`), and an input that mentions outdoor
  seating never receives "We do not offer outdoor seating."
  (`Chatbot.OutdoorSeatingLineNeverSent`).
- `get_general_info` builds its whole answer dictionary before looking up
  the keyword. Three of its four entries read the first info row, so an
  empty info table raises even for "hours" (`GeneralInfo.GetGeneralInfo`,
  `Chatbot.HoursAnswered`).

## Model

| member | source | states |
|---|---|---|
| Text.Lower | basicChatbot.py:67 | lower-casing keeps the length and maps every character through the ASCII case map |
| Text.LowerIdempotent | basicChatbot.py:67 | lower-casing twice is lower-casing once |
| Text.Contains | basicChatbot.py:69-81 | the substring test `p in s` always holds for the empty pattern and never for a pattern longer than `s`; `Text.ContainsIffOccurs` pins it to "occurs at some offset" |
| Text.ContainsIffOccurs | basicChatbot.py:69-81 | the substring test holds exactly when the keyword occurs at some offset of the input |
| Text.ContainsTransitive | basicChatbot.py:79-81 | if `p` occurs in `s` and `q` in `p`, then `q` occurs in `s` |
| Text.IsAlpha | basicChatbot.py:25 | `isalpha()` is false on the empty word, and an alphabetic word stays alphabetic when lower-cased |
| Text.Join | basicChatbot.py:26 | no words join to the empty string, one word joins to itself, and more words start with the first word followed by the separator |
| Text.JoinNonEmpty | basicChatbot.py:26 | joining words, one of which is non-empty, gives a non-empty string |
| Text.JoinLetters | basicChatbot.py:26 | a join of alphabetic words holds only letters and the separator |
| Text.SplitJoin | basicChatbot.py:26 | splitting a space-join on spaces recovers the words in order, when no word contains a space |
| Preprocess.LemmatizedTokens | basicChatbot.py:25 | at most one output word per token, and none at all when no token passes the filter |
| Preprocess.PreprocessTokens | basicChatbot.py:24-26 | the normalised text is empty when no token is alphabetic with a non-stop-word lower-case form |
| Preprocess.PreprocessText | basicChatbot.py:21-26 | the normalised text is empty when the tokeniser yields no alphabetic, non-stop-word token |
| Preprocess.KeptPositions | basicChatbot.py:25 | the kept positions strictly increase, each holds an alphabetic token whose lower-case form is not a stop word, and every such token's position is among them |
| Preprocess.LemmatizedTokensOrigin | basicChatbot.py:25 | one output word per kept position, the k-th being the lemma of the lower-cased token at the k-th kept position |
| Preprocess.LemmatizedTokensAppend | basicChatbot.py:25 | the filter-and-lemmatise step distributes over concatenation of token lists, so input order is output order |
| Preprocess.PreprocessEmptyIff | basicChatbot.py:24-26 | with a lemmatiser that never empties a word, the output is empty exactly when no token survives the filter |
| Preprocess.PreprocessSplit | basicChatbot.py:24-26 | splitting the output on spaces gives back the lemmatised kept tokens in input order |
| Preprocess.PreprocessOnlyLetters | basicChatbot.py:24-26 | when lemmas of words are words, the output holds only letters and spaces: digits and punctuation tokens are dropped |
| GeneralInfo.GetGeneralInfo | basicChatbot.py:28-37 | exactly the fixed "For more details..." line for every keyword outside hours/contact/location/website; the hours line for "hours"; the contact, address and website templates filled from the first info row; a failure exactly when a known keyword meets an empty info table |
| GeneralInfo.GeneralInfoDistinct | basicChatbot.py:29-36 | two different known keywords never give the same answer, whatever the info row holds |
| GeneralInfo.OnlyFirstRowRead | basicChatbot.py:32-34 | answers depend on the first info row only |
| Menu.FilterByCategory | basicChatbot.py:41 | a row is kept exactly when it is in the menu and its category contains the requested one, case-insensitively; a row with no category never matches (a column with no category text at all fails earlier, in `GetMenuItemRecommendation`) |
| Menu.Candidates | basicChatbot.py:41-47 | the rows drawn from are the menu rows in the category when a non-empty category is given, and the whole menu otherwise |
| Menu.Recommendation | basicChatbot.py:50 | the recommendation starts with "How about trying our " and ends with "." |
| Menu.Describe | basicChatbot.py:49 | the description cell when present, "a delicious choice" when missing |
| Menu.RecommendationMentions | basicChatbot.py:49-50 | the recommendation holds the item name, its description (or "a delicious choice" when the description is missing) and its price, each at its place in the template |
| Menu.GetMenuItemRecommendation | basicChatbot.py:39-50 | with a category: a failure exactly when the menu has rows and none has category text (the `.str` accessor raises), otherwise "Sorry, I couldn't find any items in that category." exactly when no row matches; without a category: a failure exactly when the menu is empty; no other failure; otherwise the recommendation of a menu row that is in the category when one is given |
| Menu.EveryCandidateDrawn | basicChatbot.py:42-48 | every candidate row is recommended for some draw |
| Faq.ArgMax | basicChatbot.py:59 | the chosen index holds the maximum score and every earlier index scores strictly less (`np.argmax` takes the first maximum) |
| Faq.FirstMaxUnique | basicChatbot.py:59 | there is only one first maximum, so the choice is determined |
| Faq.ArgMaxAtMost | basicChatbot.py:59 | `np.argmax` never picks an index after one that holds the maximum score |
| Faq.BestAnswer | basicChatbot.py:59-63 | the answer of the first best-scoring FAQ when some score exceeds 0.1; the apology when every score is at most 0.1; a failure exactly when there is no FAQ |
| Faq.TieGoesToEarliest | basicChatbot.py:59-61 | of two FAQs tied at the top score, the later one is never chosen: the choice, and the answer above the threshold, come from the earlier one or an FAQ before it |
| Faq.NormalizedQuestions | basicChatbot.py:54 | one normalised question per FAQ, in table order |
| Faq.Scores | basicChatbot.py:58 | one score per corpus document, in corpus order, each the similarity of the query to that document |
| Faq.GetClosestFaq | basicChatbot.py:52-63 | the lookup fails exactly when the FAQ table is empty, and then only with the empty-vocabulary failure |
| Faq.NoConfidentMatch | basicChatbot.py:58-63 | a query scoring at most 0.1 against every FAQ gets the apology |
| Faq.PerfectMatchAnswered | basicChatbot.py:58-61 | a query scoring 1.0 (the top possible) against a FAQ, with no earlier FAQ at 1.0, gets that FAQ's answer |
| Router.UnmatchedIffNoKeyword | basicChatbot.py:69-84 | the FAQ lookup is reached exactly when none of the fourteen keywords occurs in the lower-cased input |
| Router.OutdoorSeatingImpliesEat | basicChatbot.py:79-81 | every input containing "outdoor seating" contains "eat" |
| Router.OutdoorSeatingUnreachable | basicChatbot.py:79-82 | no input is routed to the outdoor-seating line |
| Router.OutdoorSeatingRoutedEarlier | basicChatbot.py:69-81 | an input containing "outdoor seating" is routed to one of the six earlier intents |
| Router.RouteOfLowered | basicChatbot.py:67 | lower-casing the input first does not change the route |
| Router.RouteIgnoresCase | basicChatbot.py:67 | two inputs with equal lower-case forms take the same branch |
| Router.FirstMatchFinds | basicChatbot.py:69-84 | in an ordered rule list, a rule that fires with no earlier rule firing decides the intent |
| Router.FirstMatchFallsThrough | basicChatbot.py:69-84 | a rule list falls through exactly when no rule fires |
| Router.RuleOf | basicChatbot.py:69-81 | every keyword the cascade tests belongs to the keyword list of one rule |
| Router.RouteLowered | basicChatbot.py:69-84 | the if/elif cascade on a lower-cased input is the ordered rule list read first-match-wins |
| Router.Route | basicChatbot.py:67-84 | the route of an utterance is the first rule that fires on its lower-cased form |
| Router.RulePrecedence | basicChatbot.py:69-84 | the earliest rule whose keywords occur in the lower-cased input decides, whatever later keywords occur |
| Router.HoursWin | basicChatbot.py:69-70 | "hours" or "open" anywhere routes to the hours answer |
| Chatbot.GetResponse | basicChatbot.py:65-84 | a turn fails exactly when its route reads a degenerate table: an empty info table for the four info intents, an empty menu for a general recommendation, a menu with rows but no category text for the cocktail recommendation, an empty FAQ table for the fallback |
| Chatbot.HoursAnswered | basicChatbot.py:69-70 | "hours" or "open" anywhere gives the hours line, or a failure when the info table is empty |
| Chatbot.PhoneAnswered | basicChatbot.py:71-72 | "phone" without "hours" or "open" gives exactly "You can contact us at: " followed by the first row's phone number |
| Chatbot.NoKeywordGoesToFaq | basicChatbot.py:83-84 | with no keyword, the answer is the FAQ lookup on the input as typed |
| Chatbot.OutdoorSeatingLineNeverSent | basicChatbot.py:79-82 | an input mentioning outdoor seating never receives "We do not offer outdoor seating." |
| Chatbot.AlwaysAnswered | basicChatbot.py:65-84 | in the model, non-empty FAQ, info and menu tables with at least one categorised menu row make every turn a text answer |
| Chatbot.StructuredAnswersIgnoreCase | basicChatbot.py:67-82 | inputs equal up to case get the same structured answer |

## Left out

- The Tkinter window and the send/quit handling (basicChatbot.py:86-131): user interface, no answering logic.
- Reading the three CSV files (basicChatbot.py:12-14) and the NLTK downloads (basicChatbot.py:17-19): file and network I/O. The tables are the `Tables` value; the NLTK resources are the `Toolkit` value.
- The `print` echo of the question (basicChatbot.py:66): console output.
- `word_tokenize`, the English stop-word list and `WordNetLemmatizer` (basicChatbot.py:22-25): library behaviour, taken as inputs. Because of this, idempotence of normalisation is not stated: it depends on how the tokeniser and the lemmatiser treat their own output.
- TF-IDF fitting and cosine similarity (basicChatbot.py:55-58): floating-point library numerics, taken as the `similarity` input. Scores are `real`, so NaN scores and the binary rounding of 0.1 are not modelled.
- Chatbot.AlwaysAnswered: holds in the model only. In the program, a non-empty FAQ table whose questions all normalise to no usable term (all stop words, say) still makes every unmatched turn raise, because that vectoriser failure is not modelled (see `Faq.GetClosestFaq` below). The menu case is in the model: a menu whose rows all lack a category makes the cocktail turn fail, so the lemma requires a categorised row.
- Chatbot.GetResponse: besides the failures it states, the program also raises on a non-empty FAQ table whose questions leave the vectoriser no usable term; the model answers that turn (see `Faq.GetClosestFaq` below).
- Faq.GetClosestFaq: the vectoriser also raises when every FAQ question normalises to no usable term; the model raises only for an empty FAQ table, because the vectoriser's own token pattern is not modelled.
- The randomness of `sample()` (basicChatbot.py:43, 47): replaced by the `draw` input.
- Menu.FilterByCategory: `str.contains` treats the category as a regular expression; the model uses a plain substring test, which agrees for the only category the router passes ("Cocktails").
- Text.Lower: Python lower-cases all of Unicode; the model maps only ASCII 'A'-'Z'.
- Text.IsAlpha: Python's `isalpha()` accepts every Unicode letter, so `'café'.isalpha()` is True; the model accepts only ASCII letters, and `Keeps` drops such a token.
- Cells of the tables other than a menu row's category and description are plain strings; a missing name, price or answer (rendered by Python as "nan") is not modelled. The column typing of the table reader is modelled only for the menu's Category column (`Menu.CategoryColumnNotText`).
