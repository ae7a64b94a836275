/**
 * The string operations the screens rely on: `toLowerCase`, `includes`,
 * `trim` and the single-occurrence `replace(' ', '.')` used to build an
 * e-mail address. Lower-casing and white space are modelled on ASCII only.
 */
module Text {

  /** ASCII `toLowerCase` of one character. */
  function LowerChar(c: char): (r: char)
    ensures 'A' <= c <= 'Z' ==> 'a' <= r <= 'z' && r as int - c as int == 32
    ensures !('A' <= c <= 'Z') ==> r == c
  {
    if 'A' <= c <= 'Z' then (c as int + 32) as char else c
  }

  /** `String.prototype.toLowerCase`, character by character. */
  function ToLower(s: string): (r: string)
    ensures |r| == |s|
    ensures forall i :: 0 <= i < |s| ==> r[i] == LowerChar(s[i])
  {
    if s == [] then [] else [LowerChar(s[0])] + ToLower(s[1..])
  }

  /** Lower-casing twice is lower-casing once, so lower-cased text compares case-insensitively. */
  lemma ToLowerIdempotent(s: string)
    ensures ToLower(ToLower(s)) == ToLower(s)
  {
    var once := ToLower(s);
    var twice := ToLower(once);
    forall i | 0 <= i < |s| ensures twice[i] == once[i] {
      assert LowerChar(LowerChar(s[i])) == LowerChar(s[i]);
    }
  }

  predicate IsPrefix(p: string, s: string) {
    |p| <= |s| && s[..|p|] == p
  }

  /** `String.prototype.includes`: `sub` occurs somewhere in `s`. */
  predicate Contains(s: string, sub: string)
    decreases |s|
  {
    IsPrefix(sub, s) || (|s| > 0 && Contains(s[1..], sub))
  }

  /** Every string contains the empty string, as `''.includes('')` and `'abc'.includes('')` are true. */
  lemma ContainsEmpty(s: string)
    ensures Contains(s, "")
  {
    assert IsPrefix("", s);
  }

  /** `sub` occurs in `s` starting at index `i`. */
  predicate OccursAt(s: string, sub: string, i: int) {
    0 <= i <= |s| - |sub| && s[i..i + |sub|] == sub
  }

  /** `Contains` means an occurrence at some index. */
  lemma {:induction false} ContainsAt(s: string, sub: string)
    ensures Contains(s, sub) <==> exists i :: OccursAt(s, sub, i)
    decreases |s|
  {
    if Contains(s, sub) {
      if IsPrefix(sub, s) {
        assert OccursAt(s, sub, 0);
      } else {
        ContainsAt(s[1..], sub);
        var i :| OccursAt(s[1..], sub, i);
        assert s[i + 1..i + 1 + |sub|] == s[1..][i..i + |sub|];
        assert OccursAt(s, sub, i + 1);
      }
    }
    if exists i :: OccursAt(s, sub, i) {
      var i :| OccursAt(s, sub, i);
      if i == 0 {
        assert IsPrefix(sub, s);
      } else {
        assert s[1..][i - 1..i - 1 + |sub|] == s[i..i + |sub|];
        assert OccursAt(s[1..], sub, i - 1);
        ContainsAt(s[1..], sub);
      }
    }
  }

  /** The white space `trim` removes (the ASCII part of it). */
  predicate IsSpace(c: char) {
    c == ' ' || c == '\t' || c == '\n' || c == '\r' || c == '\U{000B}' || c == '\U{000C}'
  }

  function TrimStart(s: string): string {
    if s != [] && IsSpace(s[0]) then TrimStart(s[1..]) else s
  }

  function TrimEnd(s: string): string {
    if s != [] && IsSpace(s[|s| - 1]) then TrimEnd(s[..|s| - 1]) else s
  }

  /** `String.prototype.trim`. */
  function Trim(s: string): string {
    TrimEnd(TrimStart(s))
  }

  /** Only white space, so that `!s.trim()` holds. */
  predicate IsBlank(s: string) {
    forall i :: 0 <= i < |s| ==> IsSpace(s[i])
  }

  lemma {:induction false} TrimStartBlank(s: string)
    ensures TrimStart(s) == [] <==> IsBlank(s)
    ensures TrimStart(s) != [] ==> !IsSpace(TrimStart(s)[0])
  {
    if s != [] && IsSpace(s[0]) {
      TrimStartBlank(s[1..]);
      assert IsBlank(s) <==> IsBlank(s[1..]) by {
        assert forall i :: 1 <= i < |s| ==> s[i] == s[1..][i - 1];
      }
    }
  }

  lemma {:induction false} TrimEndKeepsNonEmpty(s: string)
    requires s != [] && !IsSpace(s[0])
    ensures TrimEnd(s) != []
  {
    if IsSpace(s[|s| - 1]) {
      TrimEndKeepsNonEmpty(s[..|s| - 1]);
    }
  }

  /** `s.trim()` is the empty (falsy) string exactly when `s` is all white space. */
  lemma TrimEmptyIffBlank(s: string)
    ensures Trim(s) == [] <==> IsBlank(s)
  {
    TrimStartBlank(s);
    var t := TrimStart(s);
    if t != [] {
      TrimEndKeepsNonEmpty(t);
    }
  }

  /** `s.replace(a, b)` with a one-character pattern: only the FIRST occurrence is replaced. */
  function ReplaceFirst(s: string, a: char, b: char): (r: string)
    ensures |r| == |s|
    ensures a !in s ==> r == s
  {
    if s == [] then []
    else if s[0] == a then [b] + s[1..]
    else [s[0]] + ReplaceFirst(s[1..], a, b)
  }

  /** Position by position: the first `a` becomes `b`, every other character is kept. */
  lemma ReplaceFirstAt(s: string, a: char, b: char)
    ensures forall i :: 0 <= i < |s| ==>
              ReplaceFirst(s, a, b)[i] == if s[i] == a && a !in s[..i] then b else s[i]
  {
    forall i | 0 <= i < |s| ensures ReplaceFirst(s, a, b)[i] == if s[i] == a && a !in s[..i] then b else s[i] {
      ReplaceFirstIndex(s, a, b, i);
    }
  }

  lemma {:induction false} ReplaceFirstIndex(s: string, a: char, b: char, i: nat)
    requires i < |s|
    ensures ReplaceFirst(s, a, b)[i] == if s[i] == a && a !in s[..i] then b else s[i]
  {
    if s[0] == a {
      if i > 0 { assert s[..i][0] == a; }
    } else if i > 0 {
      ReplaceFirstIndex(s[1..], a, b, i - 1);
      assert s[..i] == [s[0]] + s[1..][..i - 1];
    }
  }

  /** The replaced position is the first occurrence of `a`; everything else is kept. */
  lemma {:induction false} ReplaceFirstOnlyFirst(s: string, a: char, b: char, i: nat)
    requires i < |s| && s[i] == a && a !in s[..i]
    ensures ReplaceFirst(s, a, b) == s[..i] + [b] + s[i + 1..]
  {
    if i > 0 {
      assert s[0] != a by { assert s[0] == s[..i][0]; }
      assert s[1..][..i - 1] == s[1..i];
      assert a !in s[1..][..i - 1] by { assert s[1..i] == s[..i][1..]; }
      ReplaceFirstOnlyFirst(s[1..], a, b, i - 1);
      assert s[..i] == [s[0]] + s[1..][..i - 1];
      assert s[i + 1..] == s[1..][i..];
    }
  }
}
