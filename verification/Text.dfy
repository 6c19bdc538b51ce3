/**
 The string operations of Go's standard library that the policy code relies on.
 Case mapping covers ASCII letters; white space is the set that `unicode.IsSpace` names.
 */
module Text {

  function LowerChar(c: char): char {
    if 'A' <= c <= 'Z' then ((c as int) + 32) as char else c
  }

  function UpperChar(c: char): char {
    if 'a' <= c <= 'z' then ((c as int) - 32) as char else c
  }

  function ToLower(s: string): (r: string)
    ensures |r| == |s| && forall i :: 0 <= i < |s| ==> r[i] == LowerChar(s[i])
  {
    seq(|s|, i requires 0 <= i < |s| => LowerChar(s[i]))
  }

  /** The same character, or the same letter in the other case. */
  ghost predicate SameLetter(a: char, b: char) {
    || a == b
    || ('A' <= a <= 'Z' && 'a' <= b <= 'z' && a as int - 'A' as int == b as int - 'a' as int)
    || ('a' <= a <= 'z' && 'A' <= b <= 'Z' && a as int - 'a' as int == b as int - 'A' as int)
  }

  /** Equal but for the case of letters. */
  ghost predicate EqualFold(a: string, b: string) {
    |a| == |b| && forall i :: 0 <= i < |a| ==> SameLetter(a[i], b[i])
  }

  lemma CaseOfLetter(a: char, b: char)
    ensures LowerChar(a) == LowerChar(b) <==> SameLetter(a, b)
    ensures SameLetter(LowerChar(a), a) && !('A' <= LowerChar(a) <= 'Z')
    ensures SameLetter(UpperChar(a), a) && !('a' <= UpperChar(a) <= 'z')
    ensures SameLetter(a, b) ==> UpperChar(a) == UpperChar(b)
  {
  }

  /** Texts with the same lower-case form are those that differ in case only. */
  lemma LowerEqualIff(a: string, b: string)
    ensures ToLower(a) == ToLower(b) <==> EqualFold(a, b)
  {
    forall i | 0 <= i < |a| && i < |b| ensures LowerChar(a[i]) == LowerChar(b[i]) <==> SameLetter(a[i], b[i]) {
      CaseOfLetter(a[i], b[i]);
    }
    if ToLower(a) == ToLower(b) {
      forall i | 0 <= i < |a| ensures SameLetter(a[i], b[i]) {
        assert ToLower(a)[i] == ToLower(b)[i];
      }
    }
  }

  /** The lower-case form has no capital letter and differs from the text in case only. */
  lemma LowerForm(s: string)
    ensures EqualFold(ToLower(s), s) && forall i :: 0 <= i < |s| ==> !('A' <= ToLower(s)[i] <= 'Z')
  {
    forall i | 0 <= i < |s| ensures SameLetter(ToLower(s)[i], s[i]) && !('A' <= ToLower(s)[i] <= 'Z') {
      CaseOfLetter(s[i], s[i]);
    }
  }

  predicate IsSpace(c: char) {
    var n := c as int;
    || 9 <= n <= 13 || n == 32 || n == 0x85 || n == 0xA0 || n == 0x1680
    || 0x2000 <= n <= 0x200A || n == 0x2028 || n == 0x2029 || n == 0x202F
    || n == 0x205F || n == 0x3000
  }

  predicate IsBracket(c: char) {
    c == '[' || c == ']'
  }

  /** `strings.Trim`: cut every leading and trailing character in the cut set. */
  function Trim(s: string, cut: char -> bool): (r: string)
    ensures r != "" ==> !cut(r[0]) && !cut(r[|r| - 1])
  {
    if s == "" then s
    else if cut(s[0]) then Trim(s[1..], cut)
    else if cut(s[|s| - 1]) then Trim(s[..|s| - 1], cut)
    else s
  }

  function TrimSpace(s: string): string {
    Trim(s, IsSpace)
  }

  /** Trimming twice is trimming once. */
  lemma TrimIdempotent(s: string, cut: char -> bool)
    ensures Trim(Trim(s, cut), cut) == Trim(s, cut)
  {
  }

  /** Trimming cuts nothing but what is in the cut set, from the ends, and all of it. */
  lemma {:induction false} TrimCutsEnds(s: string, cut: char -> bool) returns (i: nat, j: nat)
    ensures i <= j <= |s| && Trim(s, cut) == s[i..j]
    ensures (forall k :: 0 <= k < i ==> cut(s[k])) && (forall k :: j <= k < |s| ==> cut(s[k]))
    ensures i < j ==> !cut(s[i]) && !cut(s[j - 1])
  {
    i, j := 0, |s|;
    if s != "" && cut(s[0]) {
      i, j := TrimCutsEnds(s[1..], cut);
      assert s[1..][i..j] == s[i + 1..j + 1];
      assert forall k :: 0 < k < |s| ==> s[k] == s[1..][k - 1];
      i, j := i + 1, j + 1;
    } else if s != "" && cut(s[|s| - 1]) {
      i, j := TrimCutsEnds(s[..|s| - 1], cut);
      assert s[..|s| - 1][i..j] == s[i..j];
      assert forall k :: 0 <= k < |s| - 1 ==> s[k] == s[..|s| - 1][k];
    }
  }

  lemma {:induction false} TrimBefore(before: string, s: string, cut: char -> bool)
    requires forall i :: 0 <= i < |before| ==> cut(before[i])
    ensures Trim(before + s, cut) == Trim(s, cut)
  {
    if before == "" {
      assert before + s == s;
    } else {
      assert (before + s)[1..] == before[1..] + s;
      TrimBefore(before[1..], s, cut);
    }
  }

  lemma {:induction false} TrimAfter(s: string, after: string, cut: char -> bool)
    requires forall i :: 0 <= i < |after| ==> cut(after[i])
    requires s != "" && !cut(s[0]) && !cut(s[|s| - 1])
    ensures Trim(s + after, cut) == s
  {
    var n := |after| - 1;
    if after == "" {
      assert s + after == s;
    } else {
      assert (s + after)[..|s| + n] == s + after[..n];
      TrimAfter(s, after[..n], cut);
    }
  }

  /** Text between characters of the cut set that does not itself begin or end with one. */
  lemma TrimAround(before: string, s: string, after: string, cut: char -> bool)
    requires (forall c :: c in before ==> cut(c)) && (forall c :: c in after ==> cut(c))
    requires s != "" && !cut(s[0]) && !cut(s[|s| - 1])
    ensures Trim(before + s + after, cut) == s
  {
    assert before + s + after == before + (s + after);
    TrimBefore(before, s + after, cut);
    TrimAfter(s, after, cut);
  }

  /** `strings.IndexByte`, with the length of `s` standing for "not found". */
  function IndexOf(s: string, c: char): (i: nat)
    ensures i <= |s|
    ensures i < |s| ==> s[i] == c
    ensures forall j :: 0 <= j < i ==> s[j] != c
  {
    if s == "" || s[0] == c then 0 else 1 + IndexOf(s[1..], c)
  }

  /** The position just after the last `c` in `s`, or 0 when there is none. */
  function AfterLast(s: string, c: char): (i: nat)
    ensures i <= |s|
    ensures i > 0 ==> s[i - 1] == c
    ensures forall j :: i <= j < |s| ==> s[j] != c
  {
    if s == "" || s[|s| - 1] == c then |s| else AfterLast(s[..|s| - 1], c)
  }

  predicate OccursAt(s: string, part: string, i: nat) {
    i + |part| <= |s| && forall k :: 0 <= k < |part| ==> s[i + k] == part[k]
  }

  /** `strings.Contains`. */
  predicate Contains(s: string, part: string) {
    exists i | 0 <= i <= |s| :: OccursAt(s, part, i)
  }

  ghost predicate MadeOf(s: string, before: string, part: string, after: string) {
    s == before + part + after
  }

  /** `part` stands somewhere in `s`. */
  ghost predicate Within(s: string, part: string) {
    exists before, after :: MadeOf(s, before, part, after)
  }

  lemma ContainsIff(s: string, part: string)
    ensures Contains(s, part) <==> Within(s, part)
  {
    if Contains(s, part) {
      var i :| 0 <= i <= |s| && OccursAt(s, part, i);
      assert s[i..i + |part|] == part;
      assert MadeOf(s, s[..i], part, s[i + |part|..]);
    }
    if before, after :| MadeOf(s, before, part, after) {
      assert OccursAt(s, part, |before|);
    }
  }

  /** `strings.Split` on a single character: never empty. */
  function Split(s: string, sep: char): (parts: seq<string>)
    ensures |parts| >= 1
  {
    var i := IndexOf(s, sep);
    if i == |s| then [s] else [s[..i]] + Split(s[i + 1..], sep)
  }

  /** The pieces of a split hold every character of the text except the separators. */
  lemma {:induction false} SplitCovers(s: string, sep: char, k: nat)
    requires k < |s| && s[k] != sep
    ensures exists p :: p in Split(s, sep) && s[k] in p
  {
    var i := IndexOf(s, sep);
    if i == |s| {
      assert s in Split(s, sep);
    } else if k < i {
      assert s[..i][k] == s[k];
      assert s[..i] in Split(s, sep);
    } else {
      SplitCovers(s[i + 1..], sep, k - i - 1);
      var p :| p in Split(s[i + 1..], sep) && s[k] in p;
      assert p in Split(s, sep);
    }
  }

  /** When no piece is empty, no separator is at either end or next to another one. */
  lemma {:induction false} SplitNonEmpty(s: string, sep: char)
    requires "" !in Split(s, sep)
    ensures s != "" && s[0] != sep && s[|s| - 1] != sep
    ensures forall k :: 0 <= k < |s| - 1 && s[k] == sep ==> s[k + 1] != sep
  {
    var i := IndexOf(s, sep);
    if i < |s| {
      var rest := s[i + 1..];
      assert Split(s, sep) == [s[..i]] + Split(rest, sep);
      SplitNonEmpty(rest, sep);
      assert rest[|rest| - 1] == s[|s| - 1];
      forall k | 0 <= k < |s| - 1 && s[k] == sep ensures s[k + 1] != sep {
        assert i <= k;
        assert k > i ==> rest[k - i - 1] == s[k];
        assert s[k + 1] == rest[k - i];
      }
    }
  }

  /** Byte-wise string order, as Go's `<` on strings. */
  predicate Less(a: string, b: string) {
    if b == "" then false
    else if a == "" then true
    else if a[0] != b[0] then a[0] < b[0]
    else Less(a[1..], b[1..])
  }

  /** The two agree up to position `k`, where `a` ends or has the smaller character. */
  ghost predicate SmallerAt(a: string, b: string, k: nat) {
    && k <= |a| && k < |b| && a[..k] == b[..k]
    && (k < |a| ==> a[k] < b[k])
  }

  /** The order is the lexicographic one. */
  lemma {:induction false} LessIff(a: string, b: string)
    ensures Less(a, b) <==> exists k: nat :: SmallerAt(a, b, k)
  {
    if a != "" && b != "" && a[0] == b[0] {
      LessIff(a[1..], b[1..]);
      if k: nat :| SmallerAt(a[1..], b[1..], k) {
        assert a[..k + 1] == [a[0]] + a[1..][..k] && b[..k + 1] == [b[0]] + b[1..][..k];
        assert SmallerAt(a, b, k + 1);
      }
      if k: nat :| SmallerAt(a, b, k) {
        assert k > 0 && a[1..][..k - 1] == a[..k][1..] && b[1..][..k - 1] == b[..k][1..];
        assert SmallerAt(a[1..], b[1..], k - 1);
      }
    } else if a == "" {
      assert b != "" ==> SmallerAt(a, b, 0);
    } else if b != "" {
      assert a[0] < b[0] ==> SmallerAt(a, b, 0);
      forall k: nat | SmallerAt(a, b, k) ensures k == 0 {
      }
    }
  }

  lemma {:induction false} LessTotal(a: string, b: string)
    ensures !(Less(a, b) && Less(b, a))
    ensures a == b <==> !Less(a, b) && !Less(b, a)
  {
    if a != "" && b != "" && a[0] == b[0] {
      LessTotal(a[1..], b[1..]);
      assert a == [a[0]] + a[1..] && b == [b[0]] + b[1..];
    }
  }

  lemma {:induction false} LessTransitive(a: string, b: string, c: string)
    requires Less(a, b) && Less(b, c)
    ensures Less(a, c)
  {
    if a != "" && a[0] == b[0] && b[0] == c[0] {
      LessTransitive(a[1..], b[1..], c[1..]);
    }
  }
}
