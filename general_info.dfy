/** `get_general_info(keyword)`: canned answers about the venue, three of
    them filled from the first row of the info table. */
module GeneralInfo {
  import opened Replies

  /** One row of the info table: its `Phone Number`, `Address` and `Website` columns. */
  datatype VenueInfo = VenueInfo(phone: string, address: string, website: string)

  // The long messages are written as a short head plus the rest, which lets
  // the verifier read their first characters cheaply.
  const HoursMessage := "We're " + "open from 5 PM to 11 PM on weekdays, and 12 PM to 1 AM on weekends."
  const ContactPrefix := "You can contact us at: "
  const AddressPrefix := "Our address is: "
  const WebsitePrefix := "Visit our website for more info: "
  const DetailsMessage := "For " + "more details, please visit our website or contact us directly."

  /** The keywords with a dedicated answer. */
  const InfoKeywords: seq<string> := ["hours", "contact", "location", "website"]

  /** `get_general_info(keyword)`. For a known keyword the source builds the
      whole answer dictionary first. Three of its four entries read
      `info_df.iloc[0]`, so an info table without rows raises even for
      "hours". */
  function GetGeneralInfo(keyword: string, info: seq<VenueInfo>): (r: Reply)
    ensures keyword in InfoKeywords && info == [] <==> r == Failure(MissingInfoRow)
    ensures r.Answer? ==> (r.text == DetailsMessage <==> keyword !in InfoKeywords)
    ensures keyword !in InfoKeywords ==> r == Answer(DetailsMessage)
    ensures keyword in InfoKeywords && info != [] ==> r.Answer? && |r.text| > 0 && r.text[0] == LeadOf(keyword)
    ensures keyword == "hours" && info != [] ==> r == Answer(HoursMessage)
    ensures keyword == "contact" && info != [] ==> r == Answer(ContactPrefix + info[0].phone)
    ensures keyword == "location" && info != [] ==> r == Answer(AddressPrefix + info[0].address)
    ensures keyword == "website" && info != [] ==> r == Answer(WebsitePrefix + info[0].website)
  {
    if keyword in InfoKeywords then
      if info == [] then Failure(MissingInfoRow)
      else
        var row := info[0];
        var table := map[
          "hours" := HoursMessage,
          "contact" := ContactPrefix + row.phone,
          "location" := AddressPrefix + row.address,
          "website" := WebsitePrefix + row.website];
        assert keyword == "hours" || keyword == "contact" || keyword == "location" || keyword == "website";
        assert DetailsMessage[0] == 'F';
        assert table[keyword][0] == LeadOf(keyword);
        Answer(table[keyword])
    else
      Answer(DetailsMessage)
  }

  /** The first character of the dedicated answer to a known keyword. */
  function LeadOf(keyword: string): char {
    if keyword == "hours" then 'W'
    else if keyword == "contact" then 'Y'
    else if keyword == "location" then 'O'
    else 'V'
  }

  /** The four dedicated answers are told apart by their first character, so
      two different known keywords never give the same answer, whatever the
      info row holds. */
  lemma {:induction false} GeneralInfoDistinct(k1: string, k2: string, info: seq<VenueInfo>)
    requires k1 in InfoKeywords && k2 in InfoKeywords && k1 != k2
    requires info != []
    ensures GetGeneralInfo(k1, info) != GetGeneralInfo(k2, info)
  {
    assert LeadOf(k1) != LeadOf(k2);
  }

  /** Only the first row of the info table is ever read. */
  lemma {:induction false} OnlyFirstRowRead(keyword: string, a: seq<VenueInfo>, b: seq<VenueInfo>)
    requires a != [] && b != [] && a[0] == b[0]
    ensures GetGeneralInfo(keyword, a) == GetGeneralInfo(keyword, b)
  {
  }
}
