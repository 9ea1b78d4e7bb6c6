/** The text normaliser `preprocess_text`: tokenise, keep the alphabetic
    tokens whose lower-case form is not a stop word, lemmatise the lower-case
    form, join with single spaces. The tokeniser, the stop-word list and the
    lemmatiser come from NLTK and are inputs here. */
module Preprocess {
  import opened Text

  /** The NLTK collaborators: `word_tokenize`, the English stop-word set and
      `WordNetLemmatizer().lemmatize`. */
  datatype Toolkit = Toolkit(
    tokenize: string -> seq<string>,
    stopWords: set<string>,
    lemmatize: string -> string)

  /** The comprehension's filter: `word.isalpha() and not word.lower() in stop_words`. */
  predicate Keeps(word: string, stopWords: set<string>) {
    IsAlpha(word) && Lower(word) !in stopWords
  }

  /** The list comprehension of `preprocess_text`: one lemma of the lower-case
      form per kept token, in token order. */
  function LemmatizedTokens(tokens: seq<string>, stopWords: set<string>, lemmatize: string -> string): (r: seq<string>)
    ensures |r| <= |tokens|
    ensures (forall i :: 0 <= i < |tokens| ==> !Keeps(tokens[i], stopWords)) ==> r == []
  {
    if tokens == [] then []
    else
      var last := tokens[|tokens| - 1];
      LemmatizedTokens(tokens[..|tokens| - 1], stopWords, lemmatize)
        + (if Keeps(last, stopWords) then [lemmatize(Lower(last))] else [])
  }

  /** `preprocess_text` on an already tokenised input. */
  function PreprocessTokens(tokens: seq<string>, stopWords: set<string>, lemmatize: string -> string): (r: string)
    ensures (forall i :: 0 <= i < |tokens| ==> !Keeps(tokens[i], stopWords)) ==> r == ""
  {
    Join(LemmatizedTokens(tokens, stopWords, lemmatize), ' ')
  }

  /** `preprocess_text(text)`. */
  function PreprocessText(text: string, kit: Toolkit): (r: string)
    ensures var tokens := kit.tokenize(text);
            (forall i :: 0 <= i < |tokens| ==> !Keeps(tokens[i], kit.stopWords)) ==> r == ""
  {
    PreprocessTokens(kit.tokenize(text), kit.stopWords, kit.lemmatize)
  }

  /** Positions of the kept tokens: strictly increasing, each holding a
      kept token, and every kept token's position among them. */
  function KeptPositions(tokens: seq<string>, stopWords: set<string>): (r: seq<nat>)
    ensures forall k :: 0 <= k < |r| ==> r[k] < |tokens| && Keeps(tokens[r[k]], stopWords)
    ensures forall k, l :: 0 <= k < l < |r| ==> r[k] < r[l]
    ensures forall i :: 0 <= i < |tokens| && Keeps(tokens[i], stopWords) ==> i in r
  {
    if tokens == [] then []
    else
      var n := |tokens| - 1;
      var init := KeptPositions(tokens[..n], stopWords);
      assert forall i :: 0 <= i < n ==> tokens[..n][i] == tokens[i];
      init + (if Keeps(tokens[n], stopWords) then [n] else [])
  }

  /** The lemmatised tokens are the lemmas of the lower-cased kept tokens,
      one per kept position, in the order of the positions. */
  lemma {:induction false} LemmatizedTokensOrigin(tokens: seq<string>, stopWords: set<string>, lemmatize: string -> string)
    ensures var r := LemmatizedTokens(tokens, stopWords, lemmatize);
            var pos := KeptPositions(tokens, stopWords);
            && |r| == |pos|
            && forall k :: 0 <= k < |pos| ==> r[k] == lemmatize(Lower(tokens[pos[k]]))
  {
    if tokens != [] {
      var n := |tokens| - 1;
      var init := tokens[..n];
      LemmatizedTokensOrigin(init, stopWords, lemmatize);
      var r0 := LemmatizedTokens(init, stopWords, lemmatize);
      var p0 := KeptPositions(init, stopWords);
      var r := LemmatizedTokens(tokens, stopWords, lemmatize);
      var pos := KeptPositions(tokens, stopWords);
      var extra := if Keeps(tokens[n], stopWords) then [n] else [];
      assert r == r0 + (if Keeps(tokens[n], stopWords) then [lemmatize(Lower(tokens[n]))] else []);
      assert pos == p0 + extra;
      forall k | 0 <= k < |pos|
        ensures r[k] == lemmatize(Lower(tokens[pos[k]]))
      {
        if k < |p0| {
          assert r[k] == r0[k] && pos[k] == p0[k];
          assert init[p0[k]] == tokens[p0[k]];
        }
      }
    }
  }

  /** The comprehension distributes over concatenation of token lists, so
      the order of the tokens is the order of their lemmas. */
  lemma {:induction false} LemmatizedTokensAppend(a: seq<string>, b: seq<string>, stopWords: set<string>, lemmatize: string -> string)
    ensures LemmatizedTokens(a + b, stopWords, lemmatize)
         == LemmatizedTokens(a, stopWords, lemmatize) + LemmatizedTokens(b, stopWords, lemmatize)
    decreases |b|
  {
    if b != [] {
      var n := |b| - 1;
      assert (a + b)[..|a + b| - 1] == a + b[..n];
      LemmatizedTokensAppend(a, b[..n], stopWords, lemmatize);
    } else {
      assert a + b == a;
    }
  }

  /** With a lemmatiser that never empties a word, the normalised text is
      empty exactly when no token survives the filter. */
  lemma {:induction false} PreprocessEmptyIff(tokens: seq<string>, stopWords: set<string>, lemmatize: string -> string)
    requires forall w :: w != "" ==> lemmatize(w) != ""
    ensures PreprocessTokens(tokens, stopWords, lemmatize) == ""
        <==> forall i :: 0 <= i < |tokens| ==> !Keeps(tokens[i], stopWords)
  {
    var r := LemmatizedTokens(tokens, stopWords, lemmatize);
    LemmatizedTokensOrigin(tokens, stopWords, lemmatize);
    if i :| 0 <= i < |tokens| && Keeps(tokens[i], stopWords) {
      var pos := KeptPositions(tokens, stopWords);
      var k :| 0 <= k < |pos| && pos[k] == i;
      assert Lower(tokens[i]) != "";
      assert r[k] != "";
      JoinNonEmpty(r, ' ', k);
    }
  }

  /** Splitting the normalised text on single spaces gives back the
      lemmatised tokens, in order, when the lemmatiser puts no space in
      its output and at least one token survives. */
  lemma PreprocessSplit(tokens: seq<string>, stopWords: set<string>, lemmatize: string -> string)
    requires forall w :: ' ' !in lemmatize(w)
    requires exists i :: 0 <= i < |tokens| && Keeps(tokens[i], stopWords)
    ensures Split(PreprocessTokens(tokens, stopWords, lemmatize), ' ') == LemmatizedTokens(tokens, stopWords, lemmatize)
  {
    var r := LemmatizedTokens(tokens, stopWords, lemmatize);
    LemmatizedTokensOrigin(tokens, stopWords, lemmatize);
    var i :| 0 <= i < |tokens| && Keeps(tokens[i], stopWords);
    assert i in KeptPositions(tokens, stopWords);
    SplitJoin(r, ' ');
  }

  /** Non-alphabetic tokens never reach the output: when the lemmatiser maps
      words to words, the normalised text holds only letters and spaces. */
  lemma {:induction false} PreprocessOnlyLetters(tokens: seq<string>, stopWords: set<string>, lemmatize: string -> string)
    requires forall w :: IsAlpha(w) ==> IsAlpha(lemmatize(w))
    ensures forall c :: c in PreprocessTokens(tokens, stopWords, lemmatize) ==> IsLetter(c) || c == ' '
  {
    var r := LemmatizedTokens(tokens, stopWords, lemmatize);
    LemmatizedTokensOrigin(tokens, stopWords, lemmatize);
    forall k | 0 <= k < |r| ensures IsAlpha(r[k]) {
      var w := tokens[KeptPositions(tokens, stopWords)[k]];
      assert IsAlpha(Lower(w));
    }
    JoinLetters(r, ' ');
  }
}
