// ASCII string helpers shared by the models of the C# string operations
// (char.IsUpper, ToUpper/ToLowerInvariant, Trim, Contains, StartsWith,
// EndsWith, IndexOf, Split and Join).
module Text {
  import opened Wrappers

  predicate IsUpper(c: char) { 'A' <= c <= 'Z' }
  predicate IsLower(c: char) { 'a' <= c <= 'z' }

  function ToUpperChar(c: char): (r: char)
    ensures IsLower(c) ==> IsUpper(r)
    ensures !IsLower(c) ==> r == c
  {
    if IsLower(c) then (c as int - 32) as char else c
  }

  function ToLowerChar(c: char): (r: char)
    ensures IsUpper(c) ==> IsLower(r)
    ensures !IsUpper(c) ==> r == c
  {
    if IsUpper(c) then (c as int + 32) as char else c
  }

  /** ToLowerInvariant restricted to ASCII letters. */
  function ToLower(s: string): (r: string)
    ensures |r| == |s|
    ensures forall i :: 0 <= i < |s| ==> r[i] == ToLowerChar(s[i])
  {
    if s == [] then [] else [ToLowerChar(s[0])] + ToLower(s[1..])
  }

  lemma ToLowerAppend(a: string, b: string)
    ensures ToLower(a + b) == ToLower(a) + ToLower(b)
  {
    assert |ToLower(a + b)| == |ToLower(a) + ToLower(b)|;
    forall i | 0 <= i < |a + b|
      ensures ToLower(a + b)[i] == (ToLower(a) + ToLower(b))[i]
    {
    }
  }

  /** char.IsWhiteSpace on the ASCII range. */
  predicate IsWhiteSpace(c: char)
  {
    c == ' ' || c == '\t' || c == '\n' || c == '\r' || c == '\U{0B}' || c == '\U{0C}'
  }

  predicate IsBlank(s: string) { forall i :: 0 <= i < |s| ==> IsWhiteSpace(s[i]) }

  /** The number of white-space characters s starts with. */
  function LeadingBlanks(s: string): (n: nat)
    ensures n <= |s| && IsBlank(s[..n]) && (n == |s| || !IsWhiteSpace(s[n]))
  {
    if s == [] || !IsWhiteSpace(s[0]) then 0 else 1 + LeadingBlanks(s[1..])
  }

  /** The number of white-space characters s ends with. */
  function TrailingBlanks(s: string): (n: nat)
    ensures n <= |s| && IsBlank(s[|s| - n..]) && (n == |s| || !IsWhiteSpace(s[|s| - n - 1]))
  {
    if s == [] || !IsWhiteSpace(s[|s| - 1]) then 0
    else
      var n := TrailingBlanks(s[..|s| - 1]);
      assert s[|s| - (n + 1)..] == s[..|s| - 1][|s| - 1 - n..] + [s[|s| - 1]];
      n + 1
  }

  /** string.Trim: drops leading and trailing white space; what is dropped is blank. */
  function Trim(s: string): (r: string)
    ensures r == [] || (!IsWhiteSpace(r[0]) && !IsWhiteSpace(r[|r| - 1]))
    ensures var i := LeadingBlanks(s);
      i + |r| <= |s| && r == s[i..i + |r|] && IsBlank(s[..i]) && IsBlank(s[i + |r|..])
  {
    var i := LeadingBlanks(s);
    var a := s[i..];
    var n := TrailingBlanks(a);
    assert a[|a| - n..] == s[i + |a| - n..];
    a[..|a| - n]
  }

  predicate IsPrefix(p: string, s: string) { |p| <= |s| && s[..|p|] == p }
  predicate IsSuffix(p: string, s: string) { |p| <= |s| && s[|s| - |p|..] == p }

  /** p occurs in s at position k. */
  predicate OccursAt(p: string, s: string, k: nat) { k + |p| <= |s| && s[k..k + |p|] == p }

  /** string.Contains (ordinal). */
  predicate Contains(s: string, p: string) { exists k: nat | k <= |s| :: OccursAt(p, s, k) }

  /** string.IndexOf (ordinal): the first position where p occurs, if any. */
  function IndexOf(s: string, p: string, from: nat := 0): (r: Option<nat>)
    requires from <= |s|
    ensures r.Some? ==> from <= r.value && OccursAt(p, s, r.value)
    ensures r.Some? ==> forall k: nat :: from <= k < r.value ==> !OccursAt(p, s, k)
    ensures r.None? ==> forall k: nat :: from <= k ==> !OccursAt(p, s, k)
    decreases |s| - from
  {
    if OccursAt(p, s, from) then Some(from)
    else if from == |s| then None
    else IndexOf(s, p, from + 1)
  }


  lemma IndexOfContains(s: string, p: string)
    ensures IndexOf(s, p).Some? <==> Contains(s, p)
  {
    if IndexOf(s, p).Some? {
      assert OccursAt(p, s, IndexOf(s, p).value);
    }
  }

  /** string.Split on a single separator character: |result| is one more than the number of separators. */
  function Split(s: string, sep: char): (r: seq<string>)
    ensures |r| >= 1
    ensures forall i :: 0 <= i < |r| ==> sep !in r[i]
    decreases |s|
  {
    if sep !in s then [s]
    else
      var k := FirstIndex(s, sep);
      [s[..k]] + Split(s[k + 1..], sep)
  }

  function FirstIndex(s: string, c: char): (k: nat)
    requires c in s
    ensures k < |s| && s[k] == c && c !in s[..k]
  {
    if s[0] == c then 0 else 1 + FirstIndex(s[1..], c)
  }

  /** string.Join with a separator. */
  function Join(parts: seq<string>, sep: string): string
  {
    if parts == [] then []
    else if |parts| == 1 then parts[0]
    else parts[0] + sep + Join(parts[1..], sep)
  }

  lemma {:induction false} JoinSnoc(parts: seq<string>, sep: string, p: string)
    requires parts != []
    ensures Join(parts + [p], sep) == Join(parts, sep) + sep + p
  {
    if |parts| == 1 {
      assert (parts + [p])[1..] == [p];
    } else {
      assert (parts + [p])[1..] == parts[1..] + [p];
      JoinSnoc(parts[1..], sep, p);
    }
  }

  lemma {:induction false} SplitJoin(s: string, sep: char)
    ensures Join(Split(s, sep), [sep]) == s
    decreases |s|
  {
    if sep in s {
      var k := FirstIndex(s, sep);
      SplitJoin(s[k + 1..], sep);
      assert s == s[..k] + [sep] + s[k + 1..];
    }
  }

  predicate IsDigitOrMinus(c: char) { '0' <= c <= '9' || c == '-' }

  /** Decimal text of a natural number (int.ToString for non-negative values). */
  function NatToString(n: nat): (r: string)
    ensures |r| >= 1
    ensures forall k :: 0 <= k < |r| ==> '0' <= r[k] <= '9'
  {
    if n < 10 then [('0' as int + n) as char]
    else NatToString(n / 10) + [('0' as int + n % 10) as char]
  }

  /** int.ToString in the invariant culture. */
  function IntToString(i: int): (r: string)
    ensures forall k :: 0 <= k < |r| ==> IsDigitOrMinus(r[k])
  {
    if i < 0 then "-" + NatToString(-i) else NatToString(i)
  }
}
