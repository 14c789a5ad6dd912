/**
 * The .NET string operations the tracker's normalisation relies on, over
 * ASCII letters: ToLower, en-US TextInfo.ToTitleCase, Trim, Replace(x, "")
 * and Split/Join on one separator character.
 */
module Text {

  predicate IsUpper(c: char) { 'A' <= c <= 'Z' }
  predicate IsLower(c: char) { 'a' <= c <= 'z' }
  predicate IsLetter(c: char) { IsUpper(c) || IsLower(c) }
  predicate IsDigit(c: char) { '0' <= c <= '9' }

  /** The characters char.IsWhiteSpace accepts. */
  predicate IsWhiteSpace(c: char) {
    c == ' ' || '\t' <= c <= '\r' || c == '\U{0085}' || c == '\U{00A0}' || c == '\U{1680}'
    || '\U{2000}' <= c <= '\U{200A}' || c == '\U{2028}' || c == '\U{2029}' || c == '\U{202F}'
    || c == '\U{205F}' || c == '\U{3000}'
  }

  predicate AllWhiteSpace(s: string) {
    forall i :: 0 <= i < |s| ==> IsWhiteSpace(s[i])
  }

  /** No whitespace at either end. */
  predicate Trimmed(s: string) {
    |s| == 0 || (!IsWhiteSpace(s[0]) && !IsWhiteSpace(s[|s| - 1]))
  }

  predicate NoUpper(s: string) {
    forall c :: c in s ==> !IsUpper(c)
  }

  function LowerChar(c: char): char {
    if IsUpper(c) then (c as int + 32) as char else c
  }

  function UpperChar(c: char): char {
    if IsLower(c) then (c as int - 32) as char else c
  }

  // ---------------------------------------------------------------- ToLower

  function ToLower(s: string): (r: string)
    ensures |r| == |s|
    ensures forall i :: 0 <= i < |s| ==> r[i] == LowerChar(s[i])
  {
    seq(|s|, i requires 0 <= i < |s| => LowerChar(s[i]))
  }

  /** Lower-casing leaves no upper-case letter and changes nothing else. */
  lemma ToLowerSpec(s: string)
    ensures NoUpper(ToLower(s))
    ensures forall i :: 0 <= i < |s| && !IsUpper(s[i]) ==> ToLower(s)[i] == s[i]
    ensures forall i :: 0 <= i < |s| && IsUpper(s[i]) ==> IsLower(ToLower(s)[i])
  {
    var r := ToLower(s);
    forall c | c in r ensures !IsUpper(c) {
      var i :| 0 <= i < |r| && r[i] == c;
    }
  }

  lemma ToLowerOfNoUpper(s: string)
    requires NoUpper(s)
    ensures ToLower(s) == s
  {
    forall i | 0 <= i < |s| ensures ToLower(s)[i] == s[i] {
      assert s[i] in s;
    }
  }

  lemma ToLowerAppend(a: string, b: string)
    ensures ToLower(a + b) == ToLower(a) + ToLower(b)
  {
    assert forall i :: 0 <= i < |a| ==> (a + b)[i] == a[i];
    assert forall i :: |a| <= i < |a| + |b| ==> (a + b)[i] == b[i - |a|];
  }

  /** Whitespace is never a letter, so lower-casing keeps it. */
  lemma ToLowerWhiteSpace(w: string)
    requires AllWhiteSpace(w)
    ensures ToLower(w) == w && AllWhiteSpace(ToLower(w))
  {
  }

  /** Lower-casing keeps every character outside the letters, and brings in none. */
  lemma ToLowerKeeps(s: string, c: char)
    requires !IsLetter(c)
    ensures c in ToLower(s) <==> c in s
  {
    var r := ToLower(s);
    if c in r {
      var i :| 0 <= i < |r| && r[i] == c;
      assert s[i] == c;
    }
    if c in s {
      var i :| 0 <= i < |s| && s[i] == c;
      assert r[i] == c;
    }
  }

  // ------------------------------------------------------------------- Trim

  /** The number of whitespace characters at the start of s. */
  function LeadingSpace(s: string): (n: nat)
    ensures n <= |s|
    ensures forall i :: 0 <= i < n ==> IsWhiteSpace(s[i])
    ensures n < |s| ==> !IsWhiteSpace(s[n])
  {
    if |s| > 0 && IsWhiteSpace(s[0]) then 1 + LeadingSpace(s[1..]) else 0
  }

  /** The number of whitespace characters at the end of s. */
  function TrailingSpace(s: string): (n: nat)
    ensures n <= |s|
    ensures forall i :: |s| - n <= i < |s| ==> IsWhiteSpace(s[i])
    ensures n < |s| ==> !IsWhiteSpace(s[|s| - 1 - n])
  {
    if |s| > 0 && IsWhiteSpace(s[|s| - 1]) then 1 + TrailingSpace(s[..|s| - 1]) else 0
  }

  /** string.Trim: drop the leading and the trailing whitespace. */
  function Trim(s: string): (r: string)
    ensures Trimmed(r)
    ensures |r| <= |s|
    ensures forall c :: c in r ==> c in s
  {
    var lead := LeadingSpace(s);
    if lead == |s| then []
    else
      var trail := TrailingSpace(s);
      assert !IsWhiteSpace(s[lead]);
      assert lead < |s| - trail;
      s[lead .. |s| - trail]
  }

  lemma LeadingSpaceUnique(s: string, n: nat)
    requires n <= |s|
    requires forall i :: 0 <= i < n ==> IsWhiteSpace(s[i])
    requires n < |s| ==> !IsWhiteSpace(s[n])
    ensures LeadingSpace(s) == n
  {
  }

  lemma TrailingSpaceUnique(s: string, n: nat)
    requires n <= |s|
    requires forall i :: |s| - n <= i < |s| ==> IsWhiteSpace(s[i])
    requires n < |s| ==> !IsWhiteSpace(s[|s| - 1 - n])
    ensures TrailingSpace(s) == n
  {
  }

  /** A string without surrounding whitespace is its own trim. */
  lemma TrimTrimmed(s: string)
    requires Trimmed(s)
    ensures Trim(s) == s
  {
    if |s| > 0 {
      LeadingSpaceUnique(s, 0);
      TrailingSpaceUnique(s, 0);
    }
  }

  /** The trim is empty exactly when the string is all whitespace. */
  lemma TrimEmpty(s: string)
    ensures Trim(s) == [] <==> AllWhiteSpace(s)
  {
    if AllWhiteSpace(s) {
      LeadingSpaceUnique(s, |s|);
    }
  }

  lemma {:induction false} LeadingSpacePrefix(w: string, t: string)
    requires AllWhiteSpace(w)
    ensures LeadingSpace(w + t) == |w| + LeadingSpace(t)
  {
    if w != [] {
      assert (w + t)[1..] == w[1..] + t;
      LeadingSpacePrefix(w[1..], t);
    } else {
      assert w + t == t;
    }
  }

  lemma {:induction false} TrailingSpaceSuffix(t: string, w: string)
    requires AllWhiteSpace(w)
    ensures TrailingSpace(t + w) == TrailingSpace(t) + |w|
  {
    if w != [] {
      var u := w[..|w| - 1];
      assert (t + w)[..|t + w| - 1] == t + u;
      TrailingSpaceSuffix(t, u);
    } else {
      assert t + w == t;
    }
  }

  lemma {:induction false} LeadingSpaceSuffix(y: string, w: string)
    requires !AllWhiteSpace(y)
    ensures LeadingSpace(y + w) == LeadingSpace(y)
  {
    assert (y + w)[0] == y[0];
    if IsWhiteSpace(y[0]) {
      assert (y + w)[1..] == y[1..] + w;
      LeadingSpaceSuffix(y[1..], w);
    }
  }

  lemma {:induction false} TrailingSpacePrefix(w: string, y: string)
    requires !AllWhiteSpace(y)
    ensures TrailingSpace(w + y) == TrailingSpace(y)
  {
    assert (w + y)[|w + y| - 1] == y[|y| - 1];
    if IsWhiteSpace(y[|y| - 1]) {
      var u := y[..|y| - 1];
      assert (w + y)[..|w + y| - 1] == w + u;
      TrailingSpacePrefix(w, u);
    }
  }

  /** Trim as the slice between the leading and the trailing whitespace. */
  lemma TrimAt(s: string, a: nat, e: nat)
    requires LeadingSpace(s) == a < |s| && e == |s| - TrailingSpace(s)
    ensures a <= e <= |s| && Trim(s) == s[a .. e]
  {
  }

  lemma TrimPrefix(w: string, y: string)
    requires AllWhiteSpace(w)
    ensures Trim(w + y) == Trim(y)
  {
    if AllWhiteSpace(y) {
      TrimAllWhiteSpace(w, y);
    } else {
      TrimPrefixOfText(w, y);
    }
  }

  /** Whitespace joined to whitespace trims to nothing, as each part does. */
  lemma TrimAllWhiteSpace(w: string, y: string)
    requires AllWhiteSpace(w) && AllWhiteSpace(y)
    ensures Trim(w + y) == [] && Trim(y) == [] && Trim(w) == []
  {
    assert AllWhiteSpace(w + y);
    TrimEmpty(w + y);
    TrimEmpty(y);
    TrimEmpty(w);
  }

  lemma TrimPrefixOfText(w: string, y: string)
    requires AllWhiteSpace(w) && !AllWhiteSpace(y)
    ensures Trim(w + y) == Trim(y)
  {
    var a, e := LeadingSpace(y), |y| - TrailingSpace(y);
    TrimAt(y, a, e);
    TrimPrefixAt(w, y, a, e);
  }

  /** Leading whitespace moves y's bounds along by |w| and leaves its trailing whitespace alone. */
  lemma TrimPrefixAt(w: string, y: string, a: nat, e: nat)
    requires AllWhiteSpace(w) && a == LeadingSpace(y) < |y| && e == |y| - TrailingSpace(y)
    ensures Trim(w + y) == y[a .. e]
  {
    LeadingSpacePrefix(w, y);
    TrailingSpacePrefix(w, y);
    TrimAppendAt(w, y, a, e);
  }

  lemma TrimAppendAt(w: string, y: string, a: nat, e: nat)
    requires a <= e <= |y| && LeadingSpace(w + y) == |w| + a < |w + y| && TrailingSpace(w + y) == |y| - e
    ensures Trim(w + y) == y[a .. e]
  {
    SliceOfAppend(w, y, a, e);
    TrimOfSlice(w + y, |w| + a, |w| + e, y[a .. e]);
  }

  /** A string whose slice between its leading and trailing whitespace is t trims to t. */
  lemma TrimOfSlice(s: string, p: nat, q: nat, t: string)
    requires p <= q <= |s| && s[p .. q] == t
    requires LeadingSpace(s) == p < |s| && TrailingSpace(s) == |s| - q
    ensures Trim(s) == t
  {
    TrimAt(s, p, q);
  }

  lemma SliceOfAppend(w: string, y: string, i: nat, j: nat)
    requires i <= j <= |y|
    ensures (w + y)[|w| + i .. |w| + j] == y[i .. j]
  {
  }

  lemma TrimSuffix(y: string, w: string)
    requires AllWhiteSpace(w)
    ensures Trim(y + w) == Trim(y)
  {
    if AllWhiteSpace(y) {
      TrimAllWhiteSpace(y, w);
      TrimEmpty(y);
    } else {
      TrimSuffixOfText(y, w);
    }
  }

  lemma TrimSuffixOfText(y: string, w: string)
    requires AllWhiteSpace(w) && !AllWhiteSpace(y)
    ensures Trim(y + w) == Trim(y)
  {
    TrailingSpaceSuffix(y, w);
    LeadingSpaceSuffix(y, w);
    assert (y + w)[..|y|] == y;
    TrimTaken(y + w, y);
  }

  /** A string that starts with y, and goes on with whitespace only, trims as y does. */
  lemma TrimTaken(s: string, y: string)
    requires |y| <= |s| && s[..|y|] == y && LeadingSpace(y) < |y|
    requires LeadingSpace(s) == LeadingSpace(y) && TrailingSpace(s) == TrailingSpace(y) + (|s| - |y|)
    ensures Trim(s) == Trim(y)
  {
    var a, e := LeadingSpace(y), |y| - TrailingSpace(y);
    TrimAt(y, a, e);
    TrimAt(s, a, e);
    SliceOfTake(s, |y|, a, e);
  }

  lemma SliceOfTake(s: string, k: nat, i: nat, j: nat)
    requires i <= j <= k <= |s|
    ensures s[i .. j] == s[..k][i .. j]
  {
  }

  /** Whitespace added around a string does not change its trim. */
  lemma TrimAround(w1: string, x: string, w2: string)
    requires AllWhiteSpace(w1) && AllWhiteSpace(w2)
    ensures Trim(w1 + x + w2) == Trim(x)
  {
    assert w1 + x + w2 == w1 + (x + w2);
    TrimPrefix(w1, x + w2);
    TrimSuffix(x, w2);
  }

  /** Lower-casing and trimming commute: whitespace is never a letter. */
  lemma TrimToLower(s: string)
    ensures Trim(ToLower(s)) == ToLower(Trim(s))
  {
    var l := ToLower(s);
    var a, t := LeadingSpace(s), TrailingSpace(s);
    SpaceToLower(s);
    if a == |s| {
      TrimEmpty(s);
      TrimEmpty(l);
    } else {
      TrimAt(s, a, |s| - t);
      TrimAt(l, a, |s| - t);
      SliceToLower(s, a, |s| - t);
    }
  }

  /** Lower-casing keeps the whitespace at both ends. */
  lemma SpaceToLower(s: string)
    ensures LeadingSpace(ToLower(s)) == LeadingSpace(s) && TrailingSpace(ToLower(s)) == TrailingSpace(s)
  {
    var l := ToLower(s);
    assert forall i :: 0 <= i < |s| ==> (IsWhiteSpace(l[i]) <==> IsWhiteSpace(s[i]));
    LeadingSpaceUnique(l, LeadingSpace(s));
    TrailingSpaceUnique(l, TrailingSpace(s));
  }

  lemma SliceToLower(s: string, a: nat, e: nat)
    requires a <= e <= |s|
    ensures ToLower(s)[a .. e] == ToLower(s[a .. e])
  {
    assert forall i :: 0 <= i < e - a ==> ToLower(s)[a .. e][i] == LowerChar(s[a + i]) == ToLower(s[a .. e])[i];
  }

  // ----------------------------------------------------------------- Remove

  /** s.Replace(c.ToString(), ""): every occurrence of c removed. */
  function Remove(s: string, c: char): (r: string)
    ensures |r| <= |s|
    ensures forall x :: x in r <==> x in s && x != c
  {
    if s == [] then []
    else (if s[0] == c then [] else [s[0]]) + Remove(s[1..], c)
  }

  lemma {:induction false} RemoveAbsent(s: string, c: char)
    requires c !in s
    ensures Remove(s, c) == s
  {
    if s != [] {
      assert s[0] != c;
      assert c !in s[1..];
      RemoveAbsent(s[1..], c);
      assert s == [s[0]] + s[1..];
    }
  }

  /** Removing from a concatenation removes from each part. */
  lemma {:induction false} RemoveAppend(a: string, b: string, c: char)
    ensures Remove(a + b, c) == Remove(a, c) + Remove(b, c)
  {
    if a == [] {
      assert a + b == b;
    } else {
      var head := if a[0] == c then [] else [a[0]];
      assert (a + b)[0] == a[0] && (a + b)[1..] == a[1..] + b;
      RemoveAppend(a[1..], b, c);
      assert Remove(a + b, c) == head + (Remove(a[1..], c) + Remove(b, c));
      assert head + (Remove(a[1..], c) + Remove(b, c)) == (head + Remove(a[1..], c)) + Remove(b, c);
    }
  }

  /** string.Replace(a, b) for single characters: every a becomes b. */
  function ReplaceChar(s: string, a: char, b: char): (r: string)
    ensures |r| == |s|
    ensures forall i :: 0 <= i < |s| ==> r[i] == (if s[i] == a then b else s[i])
  {
    seq(|s|, i requires 0 <= i < |s| => if s[i] == a then b else s[i])
  }

  // ------------------------------------------------------------ ToTitleCase

  /** Characters that continue a word once a letter has started it. */
  predicate IsWordChar(c: char) { IsLetter(c) || IsDigit(c) || c == '\'' }

  /**
   * TextInfo.ToTitleCase over ASCII, scanning left to right: a letter met
   * outside a word starts one and is upper-cased; inside a word letters are
   * lower-cased and digits and apostrophes are kept; any other character is
   * copied and ends the word.
   */
  function TitleCaseFrom(s: string, inWord: bool): (r: string)
    ensures |r| == |s|
  {
    if s == [] then []
    else
      var c := s[0];
      [if !IsLetter(c) then c else if inWord then LowerChar(c) else UpperChar(c)]
      + TitleCaseFrom(s[1..], IsLetter(c) || (inWord && IsWordChar(c)))
  }

  function ToTitleCase(s: string): string {
    TitleCaseFrom(s, false)
  }

  /**
   * A letter at the start or after a non-word character is upper-case; a
   * letter right after a letter is lower-case. (A letter right after a
   * digit or an apostrophe inside a word is left unconstrained.)
   */
  predicate TitleCased(r: string) {
    forall i :: 0 <= i < |r| && IsLetter(r[i]) ==>
      ((i == 0 || !IsWordChar(r[i - 1])) ==> IsUpper(r[i]))
      && (i > 0 && IsLetter(r[i - 1]) ==> IsLower(r[i]))
  }

  /** Title-casing only changes the case of letters. */
  lemma {:induction false} TitleCaseFromChars(s: string, inWord: bool)
    ensures forall i :: 0 <= i < |s| && !IsLetter(s[i]) ==> TitleCaseFrom(s, inWord)[i] == s[i]
    ensures forall i :: 0 <= i < |s| && IsLetter(s[i]) ==>
      IsLetter(TitleCaseFrom(s, inWord)[i]) && LowerChar(TitleCaseFrom(s, inWord)[i]) == LowerChar(s[i])
  {
    if s != [] {
      var c := s[0];
      var next := IsLetter(c) || (inWord && IsWordChar(c));
      TitleCaseFromChars(s[1..], next);
      var r := TitleCaseFrom(s, inWord);
      assert forall i :: 1 <= i < |s| ==> r[i] == TitleCaseFrom(s[1..], next)[i - 1] && s[i] == s[1..][i - 1];
    }
  }

  /** Where words start and continue, as the scan decides it, at one position. */
  lemma {:induction false} TitleCaseFromWordAt(s: string, inWord: bool, i: nat)
    requires i < |s| && IsLetter(s[i])
    ensures (if i == 0 then !inWord else !IsWordChar(s[i - 1])) ==> IsUpper(TitleCaseFrom(s, inWord)[i])
    ensures (if i == 0 then inWord else IsLetter(s[i - 1])) ==> IsLower(TitleCaseFrom(s, inWord)[i])
    decreases i
  {
    var c := s[0];
    var next := IsLetter(c) || (inWord && IsWordChar(c));
    var t := s[1..];
    if i > 0 {
      assert t[i - 1] == s[i];
      TitleCaseFromWordAt(t, next, i - 1);
      assert TitleCaseFrom(s, inWord)[i] == TitleCaseFrom(t, next)[i - 1];
      if i > 1 {
        assert t[i - 2] == s[i - 1];
      }
    }
  }

  /** ToTitleCase keeps every non-letter, lower-cases to the same text, and title-cases each word. */
  lemma ToTitleCaseSpec(s: string)
    ensures |ToTitleCase(s)| == |s|
    ensures forall i :: 0 <= i < |s| && !IsLetter(s[i]) ==> ToTitleCase(s)[i] == s[i]
    ensures ToLower(ToTitleCase(s)) == ToLower(s)
    ensures TitleCased(ToTitleCase(s))
  {
    var r := ToTitleCase(s);
    TitleCaseFromChars(s, false);
    forall i | 0 <= i < |s| && IsLetter(s[i])
      ensures ((if i == 0 then true else !IsWordChar(s[i - 1])) ==> IsUpper(r[i]))
      ensures ((if i == 0 then false else IsLetter(s[i - 1])) ==> IsLower(r[i]))
    {
      TitleCaseFromWordAt(s, false, i);
    }
    assert forall i :: 0 <= i < |s| ==> (IsWordChar(r[i]) <==> IsWordChar(s[i]));
    assert forall i :: 0 <= i < |s| ==> ToLower(r)[i] == ToLower(s)[i];
  }

  /** Title-casing keeps every character outside the letters, whitespace in particular. */
  lemma ToTitleCaseKeeps(s: string, c: char)
    requires !IsLetter(c)
    ensures c in ToTitleCase(s) <==> c in s
  {
    var r := ToTitleCase(s);
    TitleCaseFromChars(s, false);
    if c in r {
      var i :| 0 <= i < |r| && r[i] == c;
      assert s[i] == c;
    }
    if c in s {
      var i :| 0 <= i < |s| && s[i] == c;
      assert r[i] == c;
    }
  }

  lemma ToTitleCaseTrimmed(s: string)
    requires Trimmed(s)
    ensures Trimmed(ToTitleCase(s))
  {
    TitleCaseFromChars(s, false);
  }

  // ------------------------------------------------------------ Split, Join

  /** The number of occurrences of d in s. */
  function Count(s: string, d: char): nat {
    if s == [] then 0 else (if s[0] == d then 1 else 0) + Count(s[1..], d)
  }

  /** string.Split(d): the pieces between the occurrences of d. */
  function Split(s: string, d: char): (r: seq<string>)
    ensures |r| == Count(s, d) + 1
    ensures forall k :: 0 <= k < |r| ==> d !in r[k]
  {
    if s == [] then [[]]
    else
      var rest := Split(s[1..], d);
      if s[0] == d then [[]] + rest else [[s[0]] + rest[0]] + rest[1..]
  }

  /** string.Join(d, pieces). */
  function Join(pieces: seq<string>, d: char): string {
    if |pieces| == 0 then []
    else if |pieces| == 1 then pieces[0]
    else pieces[0] + [d] + Join(pieces[1..], d)
  }

  lemma {:induction false} CountAppend(a: string, b: string, d: char)
    ensures Count(a + b, d) == Count(a, d) + Count(b, d)
  {
    if a != [] {
      assert (a + b)[0] == a[0];
      assert (a + b)[1..] == a[1..] + b;
      CountAppend(a[1..], b, d);
    } else {
      assert a + b == b;
    }
  }

  lemma {:induction false} CountAbsent(s: string, d: char)
    requires d !in s
    ensures Count(s, d) == 0
  {
    if s != [] {
      assert d !in s[1..];
      CountAbsent(s[1..], d);
    }
  }

  /** Joining the pieces of a split gives the string back. */
  lemma {:induction false} JoinSplit(s: string, d: char)
    ensures Join(Split(s, d), d) == s
  {
    if s != [] {
      var rest := Split(s[1..], d);
      JoinSplit(s[1..], d);
      if s[0] == d {
        assert s == [d] + s[1..];
      } else {
        var ps := Split(s, d);
        assert ps[1..] == rest[1..];
        if |rest| == 1 {
          assert s == [s[0]] + rest[0];
        } else {
          assert Join(rest, d) == rest[0] + [d] + Join(rest[1..], d);
          assert s == [s[0]] + s[1..];
        }
      }
    }
  }

  /** Joining pieces free of d puts exactly one d between each two of them. */
  lemma {:induction false} JoinCount(ps: seq<string>, d: char)
    requires |ps| >= 1
    requires forall k :: 0 <= k < |ps| ==> d !in ps[k]
    ensures Count(Join(ps, d), d) == |ps| - 1
  {
    CountAbsent(ps[0], d);
    if |ps| > 1 {
      JoinCount(ps[1..], d);
      CountAppend(ps[0], [d], d);
      CountAppend(ps[0] + [d], Join(ps[1..], d), d);
      assert Count([d], d) == 1 by { assert [d][1..] == []; }
    }
  }

  /** Every character of a piece of a split comes from the string split. */
  lemma {:induction false} SplitPieceChars(s: string, d: char, k: nat, c: char)
    requires k < |Split(s, d)| && c in Split(s, d)[k]
    ensures c in s
  {
    if s != [] {
      var rest := Split(s[1..], d);
      if s[0] == d {
        if k > 0 {
          SplitPieceChars(s[1..], d, k - 1, c);
        }
      } else if k == 0 {
        if c != s[0] {
          assert c in rest[0];
          SplitPieceChars(s[1..], d, 0, c);
        }
      } else {
        SplitPieceChars(s[1..], d, k, c);
      }
    }
  }

  /** A string free of d splits into itself alone. */
  lemma {:induction false} SplitWithout(a: string, d: char)
    requires d !in a
    ensures Split(a, d) == [a]
  {
    if a != [] {
      SplitWithout(a[1..], d);
      assert a == [a[0]] + a[1..];
    }
  }

  /** A piece free of d followed by d comes off the front of the split. */
  lemma {:induction false} SplitAfter(a: string, d: char, rest: string)
    requires d !in a
    ensures Split(a + [d] + rest, d) == [a] + Split(rest, d)
  {
    if a == [] {
      assert a + [d] + rest == [d] + rest;
      assert ([d] + rest)[1..] == rest;
    } else {
      SplitAfter(a[1..], d, rest);
      assert (a + [d] + rest)[1..] == a[1..] + [d] + rest;
      assert a == [a[0]] + a[1..];
    }
  }

  /** Splitting a join of pieces free of d gives the pieces back. */
  lemma {:induction false} SplitJoin(ps: seq<string>, d: char)
    requires |ps| >= 1
    requires forall k :: 0 <= k < |ps| ==> d !in ps[k]
    ensures Split(Join(ps, d), d) == ps
  {
    if |ps| == 1 {
      SplitWithout(ps[0], d);
    } else {
      SplitJoin(ps[1..], d);
      SplitAfter(ps[0], d, Join(ps[1..], d));
      assert ps == [ps[0]] + ps[1..];
    }
  }

  /** A join splits at the separator after its k-th piece. */
  lemma {:induction false} JoinSplitAt(ps: seq<string>, k: nat, d: char)
    requires 1 <= k < |ps|
    ensures Join(ps, d) == Join(ps[..k], d) + [d] + Join(ps[k..], d)
  {
    if k > 1 {
      JoinSplitAt(ps[1..], k - 1, d);
      assert ps[1..][..k - 1] == ps[..k][1..];
      assert ps[1..][k - 1..] == ps[k..];
    }
  }
}
