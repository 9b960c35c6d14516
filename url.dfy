/** Percent-encoding as the client uses it: `encodeURIComponent` (ECMA-262,
    section 19.2.6.5 of the 2023 edition) for the header's search link, and
    the `application/x-www-form-urlencoded` serializer behind
    `URLSearchParams.prototype.toString` (WHATWG URL Standard, section 5.2)
    for the search page's links. Both encode a character outside their safe
    set as the UTF-8 bytes of its code point, each written `%XY` with
    upper-case hexadecimal digits. */
module Url {
  import opened Optional


  predicate IsAsciiAlnum(c: char)
  {
    'a' <= c <= 'z' || 'A' <= c <= 'Z' || '0' <= c <= '9'
  }

  /** The characters `encodeURIComponent` leaves as they are. */
  predicate IsUriUnreserved(c: char)
  {
    IsAsciiAlnum(c) || c in "-_.!~*'()"
  }

  /** The characters the form serializer leaves as they are. */
  predicate IsFormSafe(c: char)
  {
    IsAsciiAlnum(c) || c in "*-._"
  }

  predicate IsHexDigit(c: char)
  {
    '0' <= c <= '9' || 'A' <= c <= 'F'
  }

  function HexDigit(d: nat): (c: char)
    requires d < 16
    ensures IsHexDigit(c)
  {
    "0123456789ABCDEF"[d]
  }

  /** The UTF-8 encoding of one Unicode scalar value (RFC 3629, section 3). */
  function Utf8(c: char): (bytes: seq<nat>)
    ensures 1 <= |bytes| <= 4
    ensures forall k :: 0 <= k < |bytes| ==> bytes[k] < 256
    ensures (c as int < 0x80) <==> |bytes| == 1
    ensures |bytes| == 1 ==> bytes[0] == c as int
  {
    var n := c as int;
    if n < 0x80 then [n]
    else if n < 0x800 then [0xC0 + n / 64, 0x80 + n % 64]
    else if n < 0x1_0000 then [0xE0 + n / 4096, 0x80 + (n / 64) % 64, 0x80 + n % 64]
    else [0xF0 + n / 262144, 0x80 + (n / 4096) % 64, 0x80 + (n / 64) % 64, 0x80 + n % 64]
  }

  function PercentBytes(bytes: seq<nat>): (s: string)
    requires forall k :: 0 <= k < |bytes| ==> bytes[k] < 256
    ensures |s| == 3 * |bytes|
    ensures forall k :: 0 <= k < |s| ==> s[k] == '%' || IsHexDigit(s[k])
  {
    if bytes == [] then ""
    else ['%', HexDigit(bytes[0] / 16), HexDigit(bytes[0] % 16)] + PercentBytes(bytes[1..])
  }

  /** `encodeURIComponent(s)` */
  function EncodeUriComponent(s: string): (r: string)
    ensures forall k :: 0 <= k < |r| ==> IsUriUnreserved(r[k]) || r[k] == '%' || IsHexDigit(r[k])
  {
    if s == [] then ""
    else
      var c := s[|s| - 1];
      EncodeUriComponent(s[..|s| - 1]) + (if IsUriUnreserved(c) then [c] else PercentBytes(Utf8(c)))
  }

  /** The form serializer applied to one key or value. */
  function FormEncode(s: string): (r: string)
    ensures forall k :: 0 <= k < |r| ==> IsFormSafe(r[k]) || r[k] == '+' || r[k] == '%' || IsHexDigit(r[k])
  {
    if s == [] then ""
    else
      var c := s[|s| - 1];
      FormEncode(s[..|s| - 1]) +
        (if IsFormSafe(c) then [c] else if c == ' ' then "+" else PercentBytes(Utf8(c)))
  }

  /** Text made only of unreserved characters is its own encoding. */
  lemma {:induction false} EncodeUnreserved(s: string)
    requires forall k :: 0 <= k < |s| ==> IsUriUnreserved(s[k])
    ensures EncodeUriComponent(s) == s
  {
    if s != [] {
      EncodeUnreserved(s[..|s| - 1]);
    }
  }

  /** An encoded component never contains the characters that separate the
      parts of a query string. */
  lemma EncodedHasNoSeparators(s: string)
    ensures '&' !in EncodeUriComponent(s) && '=' !in EncodeUriComponent(s)
    ensures '&' !in FormEncode(s) && '=' !in FormEncode(s)
    ensures '#' !in EncodeUriComponent(s) && '#' !in FormEncode(s)
  {
    var e, f := EncodeUriComponent(s), FormEncode(s);
    forall k | 0 <= k < |e| ensures e[k] != '&' && e[k] != '=' && e[k] != '#' {
      assert IsUriUnreserved(e[k]) || e[k] == '%' || IsHexDigit(e[k]);
    }
    forall k | 0 <= k < |f| ensures f[k] != '&' && f[k] != '=' && f[k] != '#' {
      assert IsFormSafe(f[k]) || f[k] == '+' || f[k] == '%' || IsHexDigit(f[k]);
    }
  }

  /** `URLSearchParams.prototype.toString` over a list of pairs. */
  function Serialize(pairs: seq<(string, string)>): string
  {
    if pairs == [] then ""
    else if |pairs| == 1 then FormEncode(pairs[0].0) + "=" + FormEncode(pairs[0].1)
    else Serialize(pairs[..|pairs| - 1]) + "&" +
         FormEncode(pairs[|pairs| - 1].0) + "=" + FormEncode(pairs[|pairs| - 1].1)
  }

  /** `URLSearchParams.prototype.get`: the value of the first pair with that
      name. */
  function Get(pairs: seq<(string, string)>, name: string): Option<string>
  {
    if pairs == [] then None
    else if pairs[0].0 == name then Some(pairs[0].1)
    else Get(pairs[1..], name)
  }

  /** `get` finds a value exactly when a pair has that name, and then the
      value of the first such pair. */
  lemma {:induction false} GetMeaning(pairs: seq<(string, string)>, name: string)
    ensures Get(pairs, name).None? <==> forall k :: 0 <= k < |pairs| ==> pairs[k].0 != name
    ensures Get(pairs, name).Some? ==> exists k :: 0 <= k < |pairs| && pairs[k] == (name, Get(pairs, name).value) &&
                                                   forall j :: 0 <= j < k ==> pairs[j].0 != name
  {
    if pairs != [] && pairs[0].0 != name {
      GetMeaning(pairs[1..], name);
      assert forall k :: 1 <= k < |pairs| ==> pairs[k] == pairs[1..][k - 1];
      if Get(pairs, name).Some? {
        var k :| 0 <= k < |pairs[1..]| && pairs[1..][k] == (name, Get(pairs, name).value) &&
                 forall j :: 0 <= j < k ==> pairs[1..][j].0 != name;
        assert pairs[k + 1] == (name, Get(pairs, name).value);
      }
    } else if pairs != [] {
      assert pairs[0] == (name, Get(pairs, name).value);
    }
  }

  /** The pairs after the first one named `name` has been given `value` (when
      `first`) and every later one with that name dropped. */
  function ReplaceNamed(pairs: seq<(string, string)>, name: string, value: string, first: bool): (r: seq<(string, string)>)
    ensures forall other :: other != name ==> Get(r, other) == Get(pairs, other)
    ensures first && Get(pairs, name).Some? ==> Get(r, name) == Some(value)
    ensures !first ==> Get(r, name).None?
  {
    if pairs == [] then []
    else if pairs[0].0 == name then
      if first then [(name, value)] + ReplaceNamed(pairs[1..], name, value, false)
      else ReplaceNamed(pairs[1..], name, value, false)
    else [pairs[0]] + ReplaceNamed(pairs[1..], name, value, first)
  }

  /** `URLSearchParams.prototype.set`: replaces the first pair with that name
      and drops the others, or appends a pair when there is none. */
  function Set(pairs: seq<(string, string)>, name: string, value: string): (r: seq<(string, string)>)
    ensures Get(r, name) == Some(value)
    ensures forall other :: other != name ==> Get(r, other) == Get(pairs, other)
    ensures Get(pairs, name).None? ==> r == pairs + [(name, value)]
  {
    if Get(pairs, name).None? then
      GetAppend(pairs, name, value);
      pairs + [(name, value)]
    else ReplaceNamed(pairs, name, value, true)
  }

  /** `get` on two lists of pairs one after the other: the first list's
      value when it has one, otherwise the second's. */
  lemma {:induction false} GetConcat(a: seq<(string, string)>, b: seq<(string, string)>, name: string)
    ensures Get(a + b, name) == if Get(a, name).Some? then Get(a, name) else Get(b, name)
  {
    if a == [] {
      assert a + b == b;
    } else {
      GetConcat(a[1..], b, name);
      assert (a + b)[1..] == a[1..] + b;
    }
  }

  lemma GetSingle(pair: (string, string), name: string)
    ensures Get([pair], name) == if pair.0 == name then Some(pair.1) else None
  {
    assert [pair][1..] == [];
  }

  lemma {:induction false} GetAppend(pairs: seq<(string, string)>, name: string, value: string)
    ensures Get(pairs + [(name, value)], name) == (if Get(pairs, name).Some? then Get(pairs, name) else Some(value))
    ensures forall other :: other != name ==> Get(pairs + [(name, value)], other) == Get(pairs, other)
  {
    if pairs != [] {
      assert (pairs + [(name, value)])[1..] == pairs[1..] + [(name, value)];
      GetAppend(pairs[1..], name, value);
    }
  }
}
