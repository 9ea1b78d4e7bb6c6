/** String primitives the chatbot relies on: Python's `str.lower()`, the
    substring test `p in s`, `str.isalpha()`, `' '.join(...)` and its inverse
    `str.split(' ')`. Case mapping and letter classes cover ASCII only. */
module Text {

  /** Python's `c.lower()` restricted to ASCII: 'A'..'Z' map to 'a'..'z'. */
  function LowerChar(c: char): (r: char)
    ensures 'A' <= c <= 'Z' ==> 'a' <= r <= 'z' && r as int - c as int == 32
    ensures !('A' <= c <= 'Z') ==> r == c
  {
    if 'A' <= c <= 'Z' then (c as int + 32) as char else c
  }

  /** `s.lower()`: every character mapped by LowerChar, length unchanged. */
  function Lower(s: string): (r: string)
    ensures |r| == |s|
    ensures forall i :: 0 <= i < |s| ==> r[i] == LowerChar(s[i])
  {
    if s == [] then [] else [LowerChar(s[0])] + Lower(s[1..])
  }

  lemma {:induction false} LowerIdempotent(s: string)
    ensures Lower(Lower(s)) == Lower(s)
  {
    var l := Lower(s);
    assert forall i :: 0 <= i < |s| ==> Lower(l)[i] == l[i];
  }

  /** `p` starts `s` (Python's `s.startswith(p)`). */
  predicate StartsWith(s: string, p: string) {
    |p| <= |s| && s[..|p|] == p
  }

  /** Python's substring test `p in s`, scanning start positions left to right. */
  function Contains(s: string, p: string): (r: bool)
    ensures r ==> |p| <= |s|
    ensures p == "" ==> r
    decreases |s|
  {
    StartsWith(s, p) || (|s| > 0 && Contains(s[1..], p))
  }

  /** `p` occurs in `s` at offset `i`. */
  predicate OccursAt(s: string, p: string, i: int) {
    0 <= i && i + |p| <= |s| && s[i..i + |p|] == p
  }

  /** The scan finds `p` exactly when `p` occurs at some offset of `s`. */
  lemma {:induction false} ContainsIffOccurs(s: string, p: string)
    ensures Contains(s, p) <==> exists i :: OccursAt(s, p, i)
    decreases |s|
  {
    if StartsWith(s, p) {
      assert OccursAt(s, p, 0);
    } else if |s| == 0 {
    } else {
      ContainsIffOccurs(s[1..], p);
      if i :| OccursAt(s, p, i) {
        assert s[1..][i - 1..i - 1 + |p|] == s[i..i + |p|];
        assert OccursAt(s[1..], p, i - 1);
      }
      if j :| OccursAt(s[1..], p, j) {
        assert s[1..][j..j + |p|] == s[j + 1..j + 1 + |p|];
        assert OccursAt(s, p, j + 1);
      }
    }
  }

  /** A witness offset is enough to conclude containment. */
  lemma OccursAtContains(s: string, p: string, i: int)
    requires OccursAt(s, p, i)
    ensures Contains(s, p)
  {
    ContainsIffOccurs(s, p);
  }

  /** Substring containment is transitive. */
  lemma ContainsTransitive(s: string, p: string, q: string)
    requires Contains(s, p) && Contains(p, q)
    ensures Contains(s, q)
  {
    ContainsIffOccurs(s, p);
    ContainsIffOccurs(p, q);
    var i :| OccursAt(s, p, i);
    var j :| OccursAt(p, q, j);
    forall k | 0 <= k < |q| ensures s[i + j + k] == q[k] {
      assert q[k] == p[j + k] == s[i + j + k];
    }
    assert s[i + j..i + j + |q|] == q;
    OccursAtContains(s, q, i + j);
  }

  /** Python's `c.isalpha()` restricted to ASCII letters. */
  predicate IsLetter(c: char) {
    'a' <= c <= 'z' || 'A' <= c <= 'Z'
  }

  /** `w.isalpha()`: non-empty and made of letters only. An alphabetic word
      stays alphabetic when lower-cased. */
  function IsAlpha(w: string): (r: bool)
    ensures w == "" ==> !r
    ensures r ==> |Lower(w)| > 0 && forall i :: 0 <= i < |w| ==> IsLetter(Lower(w)[i])
  {
    |w| > 0 && forall i :: 0 <= i < |w| ==> IsLetter(w[i])
  }

  /** `sep.join(words)` for a one-character separator. */
  function Join(words: seq<string>, sep: char): (r: string)
    ensures words == [] ==> r == []
    ensures |words| == 1 ==> r == words[0]
    ensures |words| > 1 ==> |r| > |words[0]| && r[..|words[0]|] == words[0] && r[|words[0]|] == sep
  {
    if words == [] then []
    else if |words| == 1 then words[0]
    else words[0] + [sep] + Join(words[1..], sep)
  }

  /** Joining keeps every word: a non-empty word makes the join non-empty. */
  lemma {:induction false} JoinNonEmpty(words: seq<string>, sep: char, k: nat)
    requires k < |words| && words[k] != ""
    ensures Join(words, sep) != ""
  {
    if |words| > 1 && k > 0 {
      JoinNonEmpty(words[1..], sep, k - 1);
    }
  }

  /** A join of alphabetic words holds only letters and separators. */
  lemma {:induction false} JoinLetters(words: seq<string>, sep: char)
    requires forall k :: 0 <= k < |words| ==> IsAlpha(words[k])
    ensures forall c :: c in Join(words, sep) ==> IsLetter(c) || c == sep
  {
    if |words| > 1 {
      JoinLetters(words[1..], sep);
      assert Join(words, sep) == words[0] + [sep] + Join(words[1..], sep);
    }
  }

  /** Python's `s.split(sep)` for a one-character separator: the pieces
      between separators, so `"".split(sep)` is `[""]`. */
  function Split(s: string, sep: char): (r: seq<string>)
    ensures |r| > 0
    decreases |s|
  {
    if sep !in s then [s]
    else
      var i := FirstIndex(s, sep);
      [s[..i]] + Split(s[i + 1..], sep)
  }

  /** Position of the first `c` in `s`. */
  function FirstIndex(s: string, c: char): (i: nat)
    requires c in s
    ensures i < |s| && s[i] == c && c !in s[..i]
  {
    if s[0] == c then 0 else FirstIndex(s[1..], c) + 1
  }

  /** A word free of the separator, then the separator: split takes the
      word as its first piece and continues after the separator. */
  lemma SplitAfterWord(w: string, sep: char, rest: string)
    requires sep !in w
    ensures Split(w + [sep] + rest, sep) == [w] + Split(rest, sep)
  {
    var s := w + [sep] + rest;
    assert s[|w|] == sep;
    var i := FirstIndex(s, sep);
    assert i == |w|;
    assert s[..i] == w;
    assert s[i + 1..] == rest;
  }

  /** Splitting a join recovers the words, provided none contains the
      separator: the words of a join can be read back in order. */
  lemma {:induction false} SplitJoin(words: seq<string>, sep: char)
    requires |words| > 0
    requires forall k :: 0 <= k < |words| ==> sep !in words[k]
    ensures Split(Join(words, sep), sep) == words
  {
    if |words| > 1 {
      var rest := words[1..];
      assert forall k :: 0 <= k < |rest| ==> rest[k] == words[k + 1];
      assert Join(words, sep) == words[0] + [sep] + Join(rest, sep);
      SplitAfterWord(words[0], sep, Join(rest, sep));
      SplitJoin(rest, sep);
    }
  }
}
