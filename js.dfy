/**
 * JavaScript value semantics that the handlers rely on: optional request
 * fields and nullable columns, truthiness, the `||` and SQL COALESCE
 * fallbacks, `startsWith` and `String.prototype.trim`.
 */
module Js {

  datatype Option<+T> = None | Some(value: T)

  /** An optional string: an absent request field (undefined) or a NULL column is None. */
  type Field = Option<string>

  /** JavaScript truthiness of an optional string: undefined, null and "" are falsy. */
  predicate Truthy(f: Field) {
    f.Some? && f.value != ""
  }

  /** `a || b` on optional strings: any falsy `a` yields `b`. */
  function Or(a: Field, b: Field): Field {
    if Truthy(a) then a else b
  }

  /** `a || ""`: the text of a truthy value, else the empty string. */
  function OrEmpty(a: Field): string {
    if Truthy(a) then a.value else ""
  }

  /** SQL `COALESCE(a, b)`: only NULL (an absent parameter) falls back to `b`. */
  function Coalesce(a: Field, b: Field): Field {
    if a.Some? then a else b
  }

  /** JavaScript `a === b` where `a` is a stored column and `b` a request field: a NULL
      column (null) is never strictly equal to an absent field (undefined), nor to any
      text. A request field sent as JSON null would equal a NULL column; the model does
      not tell JSON null from an absent field. */
  predicate SameText(a: Field, b: Field) {
    a.Some? && b.Some? && a.value == b.value
  }

  /** `${f}` in a template literal: a NULL column renders as "null". */
  function Show(f: Field): string {
    if f.Some? then f.value else "null"
  }

  predicate StartsWith(s: string, prefix: string) {
    |prefix| <= |s| && s[..|prefix|] == prefix
  }

  /** The characters `trim` removes: ECMAScript WhiteSpace and LineTerminator. */
  predicate IsSpace(c: char) {
    || c == '\t' || c == '\n' || c == '\U{000B}' || c == '\U{000C}' || c == '\r'
    || c == ' ' || c == '\U{00A0}' || c == '\U{1680}'
    || ('\U{2000}' <= c <= '\U{200A}')
    || c == '\U{2028}' || c == '\U{2029}' || c == '\U{202F}' || c == '\U{205F}'
    || c == '\U{3000}' || c == '\U{FEFF}'
  }

  /** No whitespace at either end. */
  predicate Trimmed(s: string) {
    s == [] || (!IsSpace(s[0]) && !IsSpace(s[|s| - 1]))
  }

  predicate AllSpace(s: string) {
    forall k :: 0 <= k < |s| ==> IsSpace(s[k])
  }

  /** Drops leading whitespace: the result is the suffix that starts at the first non-space. */
  function TrimStart(s: string): (r: string)
    ensures |r| <= |s| && r == s[|s| - |r|..]
    ensures AllSpace(s[..|s| - |r|])
    ensures r == [] || !IsSpace(r[0])
  {
    if |s| > 0 && IsSpace(s[0]) then
      var r := TrimStart(s[1..]);
      assert s[1..][..|s| - 1 - |r|] == s[1..|s| - |r|];
      r
    else
      s
  }

  /** Drops trailing whitespace: the result is the prefix that ends at the last non-space. */
  function TrimEnd(s: string): (r: string)
    ensures |r| <= |s| && r == s[..|r|]
    ensures AllSpace(s[|r|..])
    ensures r == [] || !IsSpace(r[|r| - 1])
  {
    if |s| > 0 && IsSpace(s[|s| - 1]) then
      var r := TrimEnd(s[..|s| - 1]);
      assert s[..|s| - 1][|r|..] == s[|r|..|s| - 1];
      r
    else
      s
  }

  /** `s.trim()`: a contiguous slice of `s` with no whitespace at either end,
      obtained by dropping whitespace only. */
  function Trim(s: string): (r: string)
    ensures Trimmed(r)
    ensures Trimmed(s) ==> r == s
  {
    TrimEnd(TrimStart(s))
  }

  /** `trim` yields "" exactly for strings made only of whitespace. */
  lemma TrimEmptyIffSpace(s: string)
    ensures Trim(s) == [] <==> AllSpace(s)
  {
    var a := TrimStart(s);
    assert s == s[..|s| - |a|] + a;
    if Trim(s) == [] {
      assert a == a[|Trim(s)|..];
    }
  }

  /** Trimming whitespace at the start of `pad + s` is the same as trimming `s`. */
  lemma {:induction false} TrimStartPadded(pad: string, s: string)
    requires AllSpace(pad)
    ensures TrimStart(pad + s) == TrimStart(s)
  {
    if pad == [] {
      assert pad + s == s;
    } else {
      assert (pad + s)[1..] == pad[1..] + s;
      TrimStartPadded(pad[1..], s);
    }
  }

  /** Trimming whitespace at the end of `s + pad` is the same as trimming `s`. */
  lemma {:induction false} TrimEndPadded(s: string, pad: string)
    requires AllSpace(pad)
    ensures TrimEnd(s + pad) == TrimEnd(s)
  {
    if pad == [] {
      assert s + pad == s;
    } else {
      var p := pad[..|pad| - 1];
      assert (s + pad)[..|s + pad| - 1] == s + p;
      TrimEndPadded(s, p);
    }
  }

  /** A value with no edge whitespace survives any whitespace padding: `trim` gives it back. */
  lemma PaddedTrim(before: string, s: string, after: string)
    requires AllSpace(before) && AllSpace(after)
    requires s != [] && Trimmed(s)
    ensures Trim(before + s + after) == s
  {
    var t := s + after;
    assert t[0] == s[0];
    assert TrimStart(t) == t;
    assert before + s + after == before + t;
    TrimStartPadded(before, t);
    TrimEndPadded(s, after);
    assert TrimEnd(s) == s;
  }
}
