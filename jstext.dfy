/**
 * The pieces of JavaScript string semantics the application relies on:
 * white space (what the regular-expression class `\s` matches and what
 * `String.prototype.trim` removes), `trim`, `toLowerCase` (ASCII letters
 * only in this model), `includes`, the relational operators `<` and `>` on
 * strings, and the two number coercions `Number(x)` and `parseFloat(x)`,
 * whose parsing rules are outside the model.
 */
module JsText {

  /**
   * ECMAScript's WhiteSpace and LineTerminator characters. `\s` and `trim`
   * use the same set.
   */
  predicate IsWhitespace(c: char) {
    var n := c as int;
    n == 0x09 || n == 0x0A || n == 0x0B || n == 0x0C || n == 0x0D || n == 0x20 ||
    n == 0xA0 || n == 0x1680 || (0x2000 <= n <= 0x200A) || n == 0x2028 || n == 0x2029 ||
    n == 0x202F || n == 0x205F || n == 0x3000 || n == 0xFEFF
  }

  /** Every character of `s` satisfies `p`. */
  function AllChars(s: string, p: char -> bool): (r: bool)
    ensures r <==> forall i :: 0 <= i < |s| ==> p(s[i])
  {
    if s == [] then true else p(s[0]) && AllChars(s[1..], p)
  }

  /** `s` holds nothing but white space (possibly nothing at all). */
  predicate IsBlank(s: string) {
    forall i :: 0 <= i < |s| ==> IsWhitespace(s[i])
  }

  /** `s` with its leading white space removed. */
  function TrimStart(s: string): (r: string)
    ensures |r| <= |s| && r == s[|s| - |r|..]
    ensures IsBlank(s[..|s| - |r|])
    ensures r != [] ==> !IsWhitespace(r[0])
  {
    if s != [] && IsWhitespace(s[0]) then TrimStart(s[1..]) else s
  }

  /** `s` with its trailing white space removed. */
  function TrimEnd(s: string): (r: string)
    ensures |r| <= |s| && r == s[..|r|]
    ensures IsBlank(s[|r|..])
    ensures r != [] ==> !IsWhitespace(r[|r| - 1])
  {
    if s != [] && IsWhitespace(s[|s| - 1]) then TrimEnd(s[..|s| - 1]) else s
  }

  /**
   * `String.prototype.trim`: the result is empty exactly when `s` is blank,
   * and otherwise neither starts nor ends with white space.
   */
  function Trim(s: string): (r: string)
    ensures r == "" <==> IsBlank(s)
    ensures r != "" ==> !IsWhitespace(r[0]) && !IsWhitespace(r[|r| - 1])
  {
    var t := TrimStart(s);
    assert s == s[..|s| - |t|] + t;
    var r := TrimEnd(t);
    assert r == "" ==> IsBlank(s) by {
      if r == "" {
        assert t == t[|r|..];
        assert t == "";
        assert s == s[..|s| - |t|];
      }
    }
    r
  }

  /** JavaScript's `toLowerCase` on one character, restricted to ASCII letters. */
  function LowerChar(c: char): char {
    if 'A' <= c <= 'Z' then (c as int + 32) as char else c
  }

  /** `toLowerCase` on a string: each character lowered, nothing added or removed. */
  function Lower(s: string): (r: string)
    ensures |r| == |s|
    ensures forall i :: 0 <= i < |s| ==> r[i] == LowerChar(s[i])
  {
    if s == [] then [] else [LowerChar(s[0])] + Lower(s[1..])
  }

  /** `t` occurs in `s` starting at position `i`. */
  predicate OccursAt(s: string, t: string, i: int) {
    0 <= i <= |s| - |t| && s[i..i + |t|] == t
  }

  /** `s.includes(t)`: `t` occurs in `s` as a contiguous substring. */
  predicate Contains(s: string, t: string) {
    exists i | 0 <= i <= |s| - |t| :: OccursAt(s, t, i)
  }

  /** `t` occurs in `s` at position `i` when letter case is disregarded. */
  predicate MatchesAtIgnoringCase(s: string, t: string, i: int) {
    0 <= i <= |s| - |t| && forall k :: 0 <= k < |t| ==> LowerChar(s[i + k]) == LowerChar(t[k])
  }

  /** Case-insensitive substring search, stated position by position. */
  ghost predicate ContainsIgnoringCase(s: string, t: string) {
    exists i :: MatchesAtIgnoringCase(s, t, i)
  }

  /**
   * The idiom `s.toLowerCase().includes(t.toLowerCase())` is exactly
   * case-insensitive substring search.
   */
  lemma LowerContainsIgnoresCase(s: string, t: string)
    ensures Contains(Lower(s), Lower(t)) <==> ContainsIgnoringCase(s, t)
  {
    var ls, lt := Lower(s), Lower(t);
    if Contains(ls, lt) {
      var i :| OccursAt(ls, lt, i);
      assert OccursAt(ls, lt, i);
      assert 0 <= i;
      assert |ls| == |s| && |lt| == |t|;
      forall k | 0 <= k < |t| ensures LowerChar(s[i + k]) == LowerChar(t[k]) {
        assert ls[i..i + |lt|][k] == ls[i + k];
      }
      assert MatchesAtIgnoringCase(s, t, i);
    }
    if ContainsIgnoringCase(s, t) {
      var i :| MatchesAtIgnoringCase(s, t, i);
      assert ls[i..i + |lt|] == lt;
      assert OccursAt(ls, lt, i);
    }
  }

  /** The empty string is contained in every string. */
  lemma EmptyIsContained(s: string)
    ensures Contains(s, "")
  {
    assert OccursAt(s, "", 0);
  }

  /** JavaScript's `<` on strings: lexicographic order on characters. */
  predicate StrLess(a: string, b: string) {
    if a == [] then b != []
    else if b == [] then false
    else if a[0] != b[0] then a[0] < b[0]
    else StrLess(a[1..], b[1..])
  }

  lemma {:induction false} StrLessIrreflexive(a: string)
    ensures !StrLess(a, a)
  {
    if a != [] {
      StrLessIrreflexive(a[1..]);
    }
  }

  lemma {:induction false} StrLessTransitive(a: string, b: string, c: string)
    requires StrLess(a, b) && StrLess(b, c)
    ensures StrLess(a, c)
  {
    if a != [] && b != [] && c != [] && a[0] == b[0] && b[0] == c[0] {
      StrLessTransitive(a[1..], b[1..], c[1..]);
    }
  }

  /** Two different strings are always ordered one way or the other. */
  lemma {:induction false} StrLessTotal(a: string, b: string)
    requires a != b
    ensures StrLess(a, b) || StrLess(b, a)
  {
    if a != [] && b != [] && a[0] == b[0] {
      assert a == [a[0]] + a[1..] && b == [b[0]] + b[1..];
      StrLessTotal(a[1..], b[1..]);
    }
  }

  /** A JavaScript number as the coercions below produce it: a value or `NaN`. */
  datatype JsNumber = NaN | Num(value: real)

  /**
   * The two coercions from text to number the form uses: `Number(x)` (what
   * `isNaN(x)` tests) and `parseFloat(x)`. Their parsing rules belong to the
   * JavaScript runtime and are parameters of the model.
   */
  datatype Coercions = Coercions(toNumber: string -> JsNumber, parseFloat: string -> JsNumber)
}
