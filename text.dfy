/**
 * The handful of Python string builtins the catalog builder relies on:
 * substring membership (`sub in s`), `str.lower()`, `str.replace(old, new)`
 * and `str()` of an optional integer.
 */
module Text {
  import opened Wrappers

  // ---------------------------------------------------------------------
  // Substring membership
  // ---------------------------------------------------------------------

  /** `sub` occurs in `s` at position `i`. */
  ghost predicate OccursAt(s: string, sub: string, i: int) {
    0 <= i && i + |sub| <= |s| && s[i..i + |sub|] == sub
  }

  /** Python's `sub in s`: some window of `s` equals `sub` (always true for the empty `sub`). */
  function Contains(s: string, sub: string): bool
    decreases |s|
  {
    |sub| <= |s| && (s[..|sub|] == sub || Contains(s[1..], sub))
  }

  lemma {:induction false} ContainsOccurs(s: string, sub: string)
    ensures Contains(s, sub) <==> exists i :: OccursAt(s, sub, i)
    decreases |s|
  {
    if |sub| <= |s| {
      if s[..|sub|] == sub {
        assert OccursAt(s, sub, 0);
      } else {
        ContainsOccurs(s[1..], sub);
        if Contains(s[1..], sub) {
          var i :| OccursAt(s[1..], sub, i);
          assert s[1..][i..i + |sub|] == s[i + 1..i + 1 + |sub|];
          assert OccursAt(s, sub, i + 1);
        }
        if i :| OccursAt(s, sub, i) {
          assert i != 0;
          assert s[1..][i - 1..i - 1 + |sub|] == s[i..i + |sub|];
          assert OccursAt(s[1..], sub, i - 1);
        }
      }
    }
  }

  /** `any(w in text for w in words)`. */
  function ContainsAny(text: string, words: seq<string>): (r: bool)
    ensures r <==> exists w :: w in words && Contains(text, w)
  {
    if words == [] then false
    else
      assert words[0] in words;
      assert forall w :: w in words <==> w == words[0] || w in words[1..];
      Contains(text, words[0]) || ContainsAny(text, words[1..])
  }

  /** No window can match when the first character of `sub` never occurs in `s`. */
  lemma {:induction false} AbsentHead(s: string, sub: string)
    requires |sub| > 0 && sub[0] !in s
    ensures !Contains(s, sub)
    decreases |s|
  {
    if |sub| <= |s| {
      assert s[..|sub|][0] == s[0];
      AbsentHead(s[1..], sub);
    }
  }

  /** A window at the head that differs from `sub` in one place leaves only the later windows. */
  lemma MismatchHead(s: string, sub: string, j: nat)
    requires j < |sub| && j < |s| && s[j] != sub[j]
    ensures Contains(s, sub) == Contains(s[1..], sub)
  {
    if |sub| <= |s| {
      assert s[..|sub|][j] == s[j];
    }
  }

  /** Windows starting before the first occurrence of `sub`'s first character never match. */
  lemma {:induction false} SkipTo(s: string, sub: string, k: nat)
    requires k <= |s| && |sub| > 0
    requires forall q :: 0 <= q < k ==> s[q] != sub[0]
    ensures Contains(s, sub) == Contains(s[k..], sub)
    decreases k
  {
    if k > 0 {
      MismatchHead(s, sub, 0);
      SkipTo(s[1..], sub, k - 1);
      assert s[1..][k - 1..] == s[k..];
    }
  }

  /**
   * `sub` does not occur in `s` when its first character occurs only at `k`
   * and is followed there by something other than `sub`'s second character.
   */
  lemma FalseStart(s: string, sub: string, k: nat)
    requires k + 1 < |s| && 1 < |sub|
    requires forall q :: 0 <= q < k ==> s[q] != sub[0]
    requires s[k + 1] != sub[1] && sub[0] !in s[k + 1..]
    ensures !Contains(s, sub)
  {
    AbsentHead(s[k + 1..], sub);
    MismatchHead(s[k..], sub, 1);
    assert s[k..][1..] == s[k + 1..];
    SkipTo(s, sub, k);
  }

  // ---------------------------------------------------------------------
  // Lower-casing
  // ---------------------------------------------------------------------

  function LowerChar(c: char): char {
    if 'A' <= c <= 'Z' then (c as int + 32) as char else c
  }

  predicate IsLower(s: string) {
    forall i :: 0 <= i < |s| ==> !('A' <= s[i] <= 'Z')
  }

  /** `s.lower()`, restricted to the ASCII letters. */
  function Lower(s: string): (r: string)
    ensures |r| == |s|
  {
    if s == [] then [] else [LowerChar(s[0])] + Lower(s[1..])
  }

  /** Every character is mapped on its own, and the result has no upper-case letter. */
  lemma {:induction false} LowerChars(s: string)
    ensures forall i :: 0 <= i < |s| ==> Lower(s)[i] == LowerChar(s[i])
    ensures IsLower(Lower(s))
  {
    if s != [] {
      LowerChars(s[1..]);
    }
  }

  /** Lower-casing twice changes nothing more than lower-casing once. */
  lemma LowerIdempotent(s: string)
    ensures Lower(Lower(s)) == Lower(s)
  {
    LowerChars(s);
    LowerOfLower(Lower(s));
  }

  /** Text that has no upper-case letter is its own lower-case form. */
  lemma {:induction false} LowerOfLower(s: string)
    requires IsLower(s)
    ensures Lower(s) == s
  {
    if s != [] {
      LowerOfLower(s[1..]);
    }
  }

  // ---------------------------------------------------------------------
  // Replace-all
  // ---------------------------------------------------------------------

  /** `s.replace(pat, rep)`: every non-overlapping occurrence, scanned left to right. */
  function ReplaceAll(s: string, pat: string, rep: string): string
    requires pat != []
    decreases |s|
  {
    if |s| < |pat| then s
    else if s[..|pat|] == pat then rep + ReplaceAll(s[|pat|..], pat, rep)
    else [s[0]] + ReplaceAll(s[1..], pat, rep)
  }

  /** Text with no occurrence of `pat` is returned unchanged. */
  lemma {:induction false} ReplaceAllAbsent(s: string, pat: string, rep: string)
    requires pat != []
    requires !Contains(s, pat)
    ensures ReplaceAll(s, pat, rep) == s
    decreases |s|
  {
    if |s| >= |pat| {
      ReplaceAllAbsent(s[1..], pat, rep);
    }
  }

  /** Replacing by a string of the same length keeps the length. */
  lemma {:induction false} ReplaceAllLength(s: string, pat: string, rep: string)
    requires pat != [] && |rep| == |pat|
    ensures |ReplaceAll(s, pat, rep)| == |s|
    decreases |s|
  {
    if |s| >= |pat| {
      if s[..|pat|] == pat {
        ReplaceAllLength(s[|pat|..], pat, rep);
      } else {
        ReplaceAllLength(s[1..], pat, rep);
      }
    }
  }

  /** A prefix of the output that never mentions `rep`'s first character was copied from the input. */
  lemma {:induction false} ReplaceAllCopiedPrefix(t: string, pat: string, rep: string, w: string)
    requires pat != [] && rep != []
    requires rep[0] !in w
    requires w <= ReplaceAll(t, pat, rep)
    ensures w <= t
    decreases |t|
  {
    if w != [] && |t| >= |pat| {
      var r := ReplaceAll(t, pat, rep);
      assert w[0] == r[0];
      if t[..|pat|] != pat {
        assert r == [t[0]] + ReplaceAll(t[1..], pat, rep);
        ReplaceAllCopiedPrefix(t[1..], pat, rep, w[1..]);
        assert w == [w[0]] + w[1..];
      }
    }
  }

  /** An occurrence inside the right part of a concatenation is an occurrence in that part. */
  lemma OccursInRight(a: string, b: string, sub: string, i: int)
    requires OccursAt(a + b, sub, i) && i >= |a|
    ensures OccursAt(b, sub, i - |a|)
  {
    assert b[i - |a|..i - |a| + |sub|] == (a + b)[i..i + |sub|];
  }

  lemma {:induction false} ReplaceAllLeavesNone(s: string, pat: string, rep: string)
    requires pat != [] && rep != []
    requires pat[0] !in rep && rep[0] !in pat
    ensures forall i :: !OccursAt(ReplaceAll(s, pat, rep), pat, i)
    decreases |s|
  {
    var r := ReplaceAll(s, pat, rep);
    if |s| < |pat| {
    } else if s[..|pat|] == pat {
      var tail := ReplaceAll(s[|pat|..], pat, rep);
      ReplaceAllLeavesNone(s[|pat|..], pat, rep);
      assert r == rep + tail;
      forall i | OccursAt(r, pat, i) ensures false {
        if i >= |rep| {
          OccursInRight(rep, tail, pat, i);
        }
      }
    } else {
      var tail := ReplaceAll(s[1..], pat, rep);
      ReplaceAllLeavesNone(s[1..], pat, rep);
      assert r == [s[0]] + tail;
      forall i | OccursAt(r, pat, i) ensures false {
        if i == 0 {
          var w := pat[1..];
          assert w == tail[..|pat| - 1];
          assert forall c :: c in w ==> c in pat;
          ReplaceAllCopiedPrefix(s[1..], pat, rep, w);
        } else {
          OccursInRight([s[0]], tail, pat, i);
        }
      }
    }
  }

  /**
   * When neither of `pat` and `rep` contains the other's first character,
   * no occurrence of `pat` is left after the replacement.
   */
  lemma ReplaceAllRemoves(s: string, pat: string, rep: string)
    requires pat != [] && rep != []
    requires pat[0] !in rep && rep[0] !in pat
    ensures !Contains(ReplaceAll(s, pat, rep), pat)
  {
    ReplaceAllLeavesNone(s, pat, rep);
    ContainsOccurs(ReplaceAll(s, pat, rep), pat);
  }

  // ---------------------------------------------------------------------
  // str() of an optional integer
  // ---------------------------------------------------------------------

  predicate IsDigit(c: char) {
    '0' <= c <= '9'
  }

  function DigitChar(d: nat): (c: char)
    requires d < 10
    ensures IsDigit(c)
  {
    (48 + d) as char
  }

  /** Decimal numeral of `n`, without leading zeros. */
  function NatToString(n: nat): (r: string)
    ensures |r| >= 1 && forall i :: 0 <= i < |r| ==> IsDigit(r[i])
    decreases n
  {
    if n < 10 then [DigitChar(n)] else NatToString(n / 10) + [DigitChar(n % 10)]
  }

  /** Value of a numeral; the partner that makes `NatToString` injective. */
  function ParseNat(s: string): nat
    decreases |s|
  {
    if s == [] then 0
    else
      var c := s[|s| - 1];
      ParseNat(s[..|s| - 1]) * 10 + (if IsDigit(c) then c as int - 48 else 0)
  }

  lemma {:induction false} ParseNatToString(n: nat)
    ensures ParseNat(NatToString(n)) == n
    decreases n
  {
    var r := NatToString(n);
    if n >= 10 {
      ParseNatToString(n / 10);
      assert r[..|r| - 1] == NatToString(n / 10);
    }
  }

  /** Python's `str(n)` for an integer. */
  function IntToString(n: int): (r: string)
    ensures |r| >= 1
    ensures n < 0 <==> r[0] == '-'
  {
    if n < 0 then "-" + NatToString(-n) else NatToString(n)
  }

  /** Python's `str(x)` for `x` an integer or `None`. */
  function IdString(x: Option<int>): string {
    match x
    case None => "None"
    case Some(n) => IntToString(n)
  }

  /** Different track identifiers never print to the same string. */
  lemma IdStringInjective(x: Option<int>, y: Option<int>)
    ensures IdString(x) == IdString(y) ==> x == y
  {
    if IdString(x) == IdString(y) && x.Some? && y.Some? {
      var a, b := x.value, y.value;
      if a < 0 {
        assert IntToString(a)[1..] == NatToString(-a);
        assert IntToString(b)[1..] == NatToString(-b);
        ParseNatToString(-a);
        ParseNatToString(-b);
      } else {
        ParseNatToString(a);
        ParseNatToString(b);
      }
    }
  }
}
