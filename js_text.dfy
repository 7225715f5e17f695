/** The three string built-ins the pages rely on: `toLowerCase`,
    `includes` and `replace` with a string pattern. Strings are `seq<char>`,
    whose elements are Unicode scalar values rather than JavaScript's UTF-16
    code units. */
module JsText {
  import opened Wrappers

  /** Lower-cases one character; only the ASCII letters A-Z are mapped. */
  function LowerChar(c: char): (r: char)
    ensures 'A' <= c <= 'Z' ==> 'a' <= r <= 'z' && r as int - c as int == 32
    ensures !('A' <= c <= 'Z') ==> r == c
    ensures !('A' <= r <= 'Z')
  {
    if 'A' <= c <= 'Z' then (c as int + 32) as char else c
  }

  /** `s.toLowerCase()`: the per-character map of `LowerChar`. */
  function ToLower(s: string): (r: string)
    ensures |r| == |s|
    ensures forall i :: 0 <= i < |s| ==> r[i] == LowerChar(s[i])
  {
    if s == [] then [] else [LowerChar(s[0])] + ToLower(s[1..])
  }

  /** A string with no upper-case ASCII letter. */
  predicate IsLower(s: string) {
    forall i :: 0 <= i < |s| ==> !('A' <= s[i] <= 'Z')
  }

  lemma ToLowerIsLower(s: string)
    ensures IsLower(ToLower(s))
  {
  }

  /** Lower-casing a string that is already lower case changes nothing, so
      lower-casing twice is lower-casing once. */
  lemma ToLowerOfLower(s: string)
    requires IsLower(s)
    ensures ToLower(s) == s
  {
  }

  lemma ToLowerIdempotent(s: string)
    ensures ToLower(ToLower(s)) == ToLower(s)
  {
    ToLowerIsLower(s);
    ToLowerOfLower(ToLower(s));
  }

  /** `sub` occurs in `s` at position `i`. */
  ghost predicate OccursAt(s: string, sub: string, i: int) {
    0 <= i && i + |sub| <= |s| && s[i..i + |sub|] == sub
  }

  /** `s.includes(sub)`: scan the positions of `s` from the left. */
  function Includes(s: string, sub: string): (r: bool)
    ensures |sub| == 0 ==> r
    ensures r ==> |sub| <= |s|
  {
    if |sub| <= |s| && s[..|sub|] == sub then true
    else if s == [] then false
    else Includes(s[1..], sub)
  }

  /** `Includes` agrees with the plain definition of a substring: there is
      a position of `s` where `sub` occurs. */
  lemma {:induction false} IncludesIff(s: string, sub: string)
    ensures Includes(s, sub) <==> exists i :: OccursAt(s, sub, i)
  {
    if |sub| <= |s| && s[..|sub|] == sub {
      assert OccursAt(s, sub, 0);
    } else if s != [] {
      IncludesIff(s[1..], sub);
      if exists i :: OccursAt(s[1..], sub, i) {
        var i :| OccursAt(s[1..], sub, i);
        assert s[i + 1..i + 1 + |sub|] == s[1..][i..i + |sub|];
        assert OccursAt(s, sub, i + 1);
      }
      if exists i :: OccursAt(s, sub, i) {
        var i :| OccursAt(s, sub, i);
        assert i != 0;
        assert s[1..][i - 1..i - 1 + |sub|] == s[i..i + |sub|];
        assert OccursAt(s[1..], sub, i - 1);
      }
    }
  }

  /** A string that includes `a` includes everything `a` includes. */
  lemma IncludesTransitive(s: string, a: string, b: string)
    requires Includes(s, a) && Includes(a, b)
    ensures Includes(s, b)
  {
    IncludesIff(s, a);
    IncludesIff(a, b);
    var i :| OccursAt(s, a, i);
    var j :| OccursAt(a, b, j);
    assert s[i + j..i + j + |b|] == b by {
      forall k | 0 <= k < |b|
        ensures s[i + j..i + j + |b|][k] == b[k]
      {
        assert s[i + j..i + j + |b|][k] == s[i..i + |a|][j + k];
        assert b[k] == a[j..j + |b|][k];
      }
    }
    assert OccursAt(s, b, i + j);
    IncludesIff(s, b);
  }

  /** A string includes each of its prefixes. */
  lemma IncludesPrefix(t: string, x: string)
    ensures Includes(t + x, t)
  {
    assert (t + x)[..|t|] == t;
  }

  /** Lower-casing works character by character, so it distributes over
      concatenation. */
  lemma ToLowerAppend(t: string, x: string)
    ensures ToLower(t + x) == ToLower(t) + ToLower(x)
  {
    assert forall i :: 0 <= i < |t + x| ==> ToLower(t + x)[i] == (ToLower(t) + ToLower(x))[i];
  }

  /** `s.replace('-', ' ')`: only the FIRST `-` is replaced. */
  function ReplaceFirstDash(s: string): (r: string)
    ensures |r| == |s|
  {
    if s == [] then []
    else if s[0] == '-' then [' '] + s[1..]
    else [s[0]] + ReplaceFirstDash(s[1..])
  }

  /** The index of the first `-`, or `|s|` when there is none. */
  function FirstDash(s: string): (k: nat)
    ensures k <= |s|
    ensures k < |s| ==> s[k] == '-'
    ensures forall i :: 0 <= i < k ==> s[i] != '-'
  {
    if s == [] then 0 else if s[0] == '-' then 0 else 1 + FirstDash(s[1..])
  }

  /** `ReplaceFirstDash` turns exactly the first `-` into a space and leaves
      every other character, later dashes included, where it was. */
  lemma {:induction false} ReplaceFirstDashSpec(s: string)
    ensures var k := FirstDash(s);
      ReplaceFirstDash(s) == if k < |s| then s[..k] + " " + s[k + 1..] else s
  {
    if s != [] && s[0] != '-' {
      ReplaceFirstDashSpec(s[1..]);
      var k := FirstDash(s[1..]);
      if k < |s[1..]| {
        assert [s[0]] + (s[1..][..k] + " " + s[1..][k + 1..]) == s[..k + 1] + " " + s[k + 2..];
      } else {
        assert [s[0]] + s[1..] == s;
      }
    } else if s != [] {
      assert s[..0] + " " + s[1..] == [' '] + s[1..];
    }
  }

  /** `value || fallback` for a string that may be missing: the empty
      string is falsy too. */
  function OrElse(value: Option<string>, fallback: string): (r: string)
    ensures value.Some? && value.value != "" ==> r == value.value
    ensures value.None? || value.value == "" ==> r == fallback
  {
    if value.Some? && value.value != "" then value.value else fallback
  }
}
