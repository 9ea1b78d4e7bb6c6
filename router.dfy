/** The keyword cascade of `get_response`: substring tests on the
    lower-cased input, tried in a fixed order, the first hit deciding the
    intent. */
module Router {
  import opened Text

  /** What the cascade dispatches to. */
  datatype Intent =
    | Hours
    | Contact
    | Location
    | Website
    | MenuCategory(category: string)
    | MenuGeneral
    | OutdoorSeating
    | Unmatched    // falls through to the FAQ lookup

  /** The cascade on an input that is already lower-cased. */
  function RouteLowered(s: string): (r: Intent)
    ensures r == FirstMatch(Rules, s)
  {
    RulesFire(s);
    UnfoldRules(s);
    if Contains(s, "hours") || Contains(s, "open") then Hours
    else if Contains(s, "contact") || Contains(s, "phone") || Contains(s, "email") then Contact
    else if Contains(s, "location") || Contains(s, "address") then Location
    else if Contains(s, "website") then Website
    else if Contains(s, "cocktail") || Contains(s, "drink") then MenuCategory("Cocktails")
    else if Contains(s, "menu") || Contains(s, "eat") || Contains(s, "food") then MenuGeneral
    else if Contains(s, "outdoor seating") then OutdoorSeating
    else Unmatched
  }

  /** The intent `get_response(user_input)` dispatches to. */
  function Route(userInput: string): (r: Intent)
    ensures r == FirstMatch(Rules, Lower(userInput))
  {
    RouteLowered(Lower(userInput))
  }

  /** The keywords of each step of the cascade. */
  const HoursKeywords: seq<string> := ["hours", "open"]
  const ContactKeywords: seq<string> := ["contact", "phone", "email"]
  const LocationKeywords: seq<string> := ["location", "address"]
  const WebsiteKeywords: seq<string> := ["website"]
  const CocktailKeywords: seq<string> := ["cocktail", "drink"]
  const MenuKeywords: seq<string> := ["menu", "eat", "food"]
  const OutdoorKeywords: seq<string> := ["outdoor seating"]

  /** Every keyword the cascade tests, in cascade order. */
  const RouteKeywords: seq<string> :=
    HoursKeywords + ContactKeywords + LocationKeywords + WebsiteKeywords
    + CocktailKeywords + MenuKeywords + OutdoorKeywords

  /** The FAQ lookup is reached exactly when no keyword occurs in the
      lower-cased input. */
  lemma UnmatchedIffNoKeyword(userInput: string)
    ensures Route(userInput) == Unmatched
        <==> forall k :: k in RouteKeywords ==> !Contains(Lower(userInput), k)
  {
    var s := Lower(userInput);
    forall j | 0 <= j < |Rules| ensures Rules[j].intent != Unmatched {
    }
    FirstMatchFallsThrough(Rules, s);
    if forall k :: k in RouteKeywords ==> !Contains(s, k) {
      NoKeywordUnmatched(s);
    } else {
      var k :| k in RouteKeywords && Contains(s, k);
      var j := RuleOf(k);
      assert Fires(Rules[j], s);
    }
  }

  /** No keyword in a lower-cased input: no rule fires, so the cascade falls
      through. */
  lemma NoKeywordUnmatched(s: string)
    requires forall k :: k in RouteKeywords ==> !Contains(s, k)
    ensures RouteLowered(s) == Unmatched
  {
    forall j | 0 <= j < |Rules| ensures !Fires(Rules[j], s) {
      assert forall k :: k in Rules[j].keywords ==> k in RouteKeywords;
    }
    forall j | 0 <= j < |Rules| ensures Rules[j].intent != Unmatched {
    }
    FirstMatchFallsThrough(Rules, s);
  }

  /** The rule whose keyword list holds a given keyword. */
  function RuleOf(k: string): (j: nat)
    requires k in RouteKeywords
    ensures j < |Rules| && k in Rules[j].keywords
  {
    if k in HoursKeywords then 0
    else if k in ContactKeywords then 1
    else if k in LocationKeywords then 2
    else if k in WebsiteKeywords then 3
    else if k in CocktailKeywords then 4
    else if k in MenuKeywords then 5
    else 6
  }

  /** "outdoor seating" holds "eat" at offset 9. */
  lemma OutdoorSeatingImpliesEat(s: string)
    requires Contains(s, "outdoor seating")
    ensures Contains(s, "eat")
  {
    OccursAtContains("outdoor seating", "eat", 9);
    ContainsTransitive(s, "outdoor seating", "eat");
  }

  /** The outdoor-seating rule can never fire: any input containing
      "outdoor seating" contains "eat", so an earlier rule has fired. */
  lemma OutdoorSeatingUnreachable(userInput: string)
    ensures Route(userInput) != OutdoorSeating
  {
    var s := Lower(userInput);
    if Contains(s, "outdoor seating") {
      OutdoorSeatingImpliesEat(s);
    }
  }

  /** An input mentioning outdoor seating gets a structured answer from one
      of the earlier rules, and never the FAQ lookup. */
  lemma OutdoorSeatingRoutedEarlier(userInput: string)
    requires Contains(Lower(userInput), "outdoor seating")
    ensures Route(userInput) in {Hours, Contact, Location, Website, MenuCategory("Cocktails"), MenuGeneral}
  {
    OutdoorSeatingImpliesEat(Lower(userInput));
  }

  /** The decision reads only the lower-cased input: lower-casing the input
      first changes nothing. */
  lemma RouteOfLowered(userInput: string)
    ensures Route(Lower(userInput)) == Route(userInput)
  {
    LowerIdempotent(userInput);
  }

  /** Two inputs equal up to case take the same branch. */
  lemma RouteIgnoresCase(a: string, b: string)
    requires Lower(a) == Lower(b)
    ensures Route(a) == Route(b)
  {
  }

  /** One row of the cascade: if any keyword occurs, the intent is chosen. */
  datatype Rule = Rule(keywords: seq<string>, intent: Intent)

  /** The cascade written as an ordered rule list. */
  const Rules: seq<Rule> := [
    Rule(HoursKeywords, Hours),
    Rule(ContactKeywords, Contact),
    Rule(LocationKeywords, Location),
    Rule(WebsiteKeywords, Website),
    Rule(CocktailKeywords, MenuCategory("Cocktails")),
    Rule(MenuKeywords, MenuGeneral),
    Rule(OutdoorKeywords, OutdoorSeating)]

  predicate Fires(rule: Rule, s: string) {
    exists k :: k in rule.keywords && Contains(s, k)
  }

  /** The intent of the first rule that fires, Unmatched when none does. */
  function FirstMatch(rules: seq<Rule>, s: string): Intent {
    if rules == [] then Unmatched
    else if Fires(rules[0], s) then rules[0].intent
    else FirstMatch(rules[1..], s)
  }

  /** First match wins: a rule that fires with no earlier rule firing decides. */
  lemma {:induction false} FirstMatchFinds(rules: seq<Rule>, s: string, i: nat)
    requires i < |rules| && Fires(rules[i], s)
    requires forall j :: 0 <= j < i ==> !Fires(rules[j], s)
    ensures FirstMatch(rules, s) == rules[i].intent
  {
    if i > 0 {
      FirstMatchFinds(rules[1..], s, i - 1);
    }
  }

  /** With no rule dispatching to Unmatched, the list falls through exactly
      when no rule fires. */
  lemma {:induction false} FirstMatchFallsThrough(rules: seq<Rule>, s: string)
    requires forall j :: 0 <= j < |rules| ==> rules[j].intent != Unmatched
    ensures FirstMatch(rules, s) == Unmatched <==> forall j :: 0 <= j < |rules| ==> !Fires(rules[j], s)
  {
    if rules != [] {
      FirstMatchFallsThrough(rules[1..], s);
      assert forall j :: 1 <= j < |rules| ==> rules[1..][j - 1] == rules[j];
    }
  }

  /** When each rule of the list fires, in terms of substring tests. */
  lemma RulesFire(s: string)
    ensures Fires(Rules[0], s) <==> Contains(s, "hours") || Contains(s, "open")
    ensures Fires(Rules[1], s) <==> Contains(s, "contact") || Contains(s, "phone") || Contains(s, "email")
    ensures Fires(Rules[2], s) <==> Contains(s, "location") || Contains(s, "address")
    ensures Fires(Rules[3], s) <==> Contains(s, "website")
    ensures Fires(Rules[4], s) <==> Contains(s, "cocktail") || Contains(s, "drink")
    ensures Fires(Rules[5], s) <==> Contains(s, "menu") || Contains(s, "eat") || Contains(s, "food")
    ensures Fires(Rules[6], s) <==> Contains(s, "outdoor seating")
  {
    var rs := Rules;
    FiresOnTwo(rs[0], s, "hours", "open");
    FiresOnThree(rs[1], s, "contact", "phone", "email");
    FiresOnTwo(rs[2], s, "location", "address");
    FiresOnOne(rs[3], s, "website");
    FiresOnTwo(rs[4], s, "cocktail", "drink");
    FiresOnThree(rs[5], s, "menu", "eat", "food");
    FiresOnOne(rs[6], s, "outdoor seating");
  }

  lemma FiresOnOne(rule: Rule, s: string, a: string)
    requires rule.keywords == [a]
    ensures Fires(rule, s) <==> Contains(s, a)
  {
    assert a in rule.keywords;
  }

  lemma FiresOnTwo(rule: Rule, s: string, a: string, b: string)
    requires rule.keywords == [a, b]
    ensures Fires(rule, s) <==> Contains(s, a) || Contains(s, b)
  {
    assert a in rule.keywords && b in rule.keywords;
  }

  lemma FiresOnThree(rule: Rule, s: string, a: string, b: string, c: string)
    requires rule.keywords == [a, b, c]
    ensures Fires(rule, s) <==> Contains(s, a) || Contains(s, b) || Contains(s, c)
  {
    assert a in rule.keywords && b in rule.keywords && c in rule.keywords;
  }

  /** One step of FirstMatch from position `i` of a rule list. */
  lemma FirstMatchStep(rules: seq<Rule>, s: string, i: nat)
    requires i < |rules|
    ensures FirstMatch(rules[i..], s) == if Fires(rules[i], s) then rules[i].intent else FirstMatch(rules[i + 1..], s)
  {
    assert rules[i..][1..] == rules[i + 1..];
  }

  /** FirstMatch on the rule list, unfolded rule by rule. */
  lemma UnfoldRules(s: string)
    ensures FirstMatch(Rules, s) ==
      if Fires(Rules[0], s) then Hours
      else if Fires(Rules[1], s) then Contact
      else if Fires(Rules[2], s) then Location
      else if Fires(Rules[3], s) then Website
      else if Fires(Rules[4], s) then MenuCategory("Cocktails")
      else if Fires(Rules[5], s) then MenuGeneral
      else if Fires(Rules[6], s) then OutdoorSeating
      else Unmatched
  {
    var rs := Rules;
    assert rs[0].intent == Hours && rs[1].intent == Contact && rs[2].intent == Location;
    assert rs[3].intent == Website && rs[4].intent == MenuCategory("Cocktails");
    assert rs[5].intent == MenuGeneral && rs[6].intent == OutdoorSeating;
    assert rs[7..] == [];
    FirstMatchStep(rs, s, 6);
    FirstMatchStep(rs, s, 5);
    FirstMatchStep(rs, s, 4);
    FirstMatchStep(rs, s, 3);
    FirstMatchStep(rs, s, 2);
    FirstMatchStep(rs, s, 1);
    FirstMatchStep(rs, s, 0);
    assert rs[0..] == rs;
  }

  /** Precedence, stated over the rule list: the earliest rule that fires on
      the lower-cased input decides, whatever later rules would say. */
  lemma RulePrecedence(userInput: string, i: nat)
    requires i < |Rules| && Fires(Rules[i], Lower(userInput))
    requires forall j :: 0 <= j < i ==> !Fires(Rules[j], Lower(userInput))
    ensures Route(userInput) == Rules[i].intent
  {
    FirstMatchFinds(Rules, Lower(userInput), i);
  }

  /** Hours come first: "hours" or "open" anywhere wins over every other
      keyword. */
  lemma HoursWin(userInput: string)
    requires Contains(Lower(userInput), "hours") || Contains(Lower(userInput), "open")
    ensures Route(userInput) == Hours
  {
  }
}
