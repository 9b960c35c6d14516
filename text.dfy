/** String helpers shared by the server and the client components: the
    JavaScript string operations the code relies on (`toLowerCase`,
    `toUpperCase`, `includes`, `trim`, `split`, `join`, `String(n)` and
    `Number(s)`), restricted to what the model needs. Case mapping is that of
    ASCII letters. */
module Text {
  import opened Optional

  // ---------------------------------------------------------------------
  // Case mapping

  predicate IsUpperAscii(c: char) { 'A' <= c <= 'Z' }
  predicate IsLowerAscii(c: char) { 'a' <= c <= 'z' }

  function LowerChar(c: char): (r: char)
    ensures IsUpperAscii(c) ==> r as int == c as int + 32
    ensures !IsUpperAscii(c) ==> r == c
  {
    if IsUpperAscii(c) then (c as int + 32) as char else c
  }

  function UpperChar(c: char): (r: char)
    ensures IsLowerAscii(c) ==> r as int == c as int - 32
    ensures !IsLowerAscii(c) ==> r == c
  {
    if IsLowerAscii(c) then (c as int - 32) as char else c
  }

  /** `s.toLowerCase()` */
  function Lower(s: string): (r: string)
    ensures |r| == |s|
    ensures forall i :: 0 <= i < |s| ==> r[i] == LowerChar(s[i])
  {
    seq(|s|, i requires 0 <= i < |s| => LowerChar(s[i]))
  }

  /** `s.toUpperCase()` */
  function Upper(s: string): (r: string)
    ensures |r| == |s|
    ensures forall i :: 0 <= i < |s| ==> r[i] == UpperChar(s[i])
  {
    seq(|s|, i requires 0 <= i < |s| => UpperChar(s[i]))
  }

  lemma UpperIdempotent(s: string)
    ensures Upper(Upper(s)) == Upper(s)
  {
    assert forall i :: 0 <= i < |s| ==> UpperChar(UpperChar(s[i])) == UpperChar(s[i]);
  }

  // ---------------------------------------------------------------------
  // Substrings

  /** `hay` contains `needle` at position `i`. */
  predicate OccursAt(hay: string, needle: string, i: int)
  {
    0 <= i && i + |needle| <= |hay| && hay[i..i + |needle|] == needle
  }

  /** `hay.includes(needle)` */
  predicate Contains(hay: string, needle: string)
  {
    exists i | 0 <= i <= |hay| - |needle| :: OccursAt(hay, needle, i)
  }

  /** `hay.toLowerCase().includes(needle.toLowerCase())`, which is also what a
      case-insensitive regular expression made of plain characters tests. */
  predicate ContainsIgnoreCase(hay: string, needle: string)
  {
    Contains(Lower(hay), Lower(needle))
  }

  lemma EmptyIsContained(hay: string)
    ensures Contains(hay, "")
  {
    assert OccursAt(hay, "", 0);
  }

  // ---------------------------------------------------------------------
  // White space, as `String.prototype.trim` and the `\s` class of regular
  // expressions define it: the WhiteSpace and LineTerminator productions of
  // ECMA-262 (section 12.2 and 12.3 of the 2023 edition).

  predicate IsSpace(c: char)
  {
    if c < '\U{0080}' then c == ' ' || '\t' <= c <= '\r' else IsWideSpace(c)
  }

  /** The white-space characters outside ASCII. */
  predicate IsWideSpace(c: char)
  {
    c == '\U{00A0}' || c == '\U{1680}' ||
    ('\U{2000}' <= c <= '\U{200A}') ||
    c == '\U{2028}' || c == '\U{2029}' || c == '\U{202F}' || c == '\U{205F}' ||
    c == '\U{3000}' || c == '\U{FEFF}'
  }

  function TrimStart(s: string): (r: string)
    ensures |r| <= |s| && r == s[|s| - |r|..]
    ensures r != [] ==> !IsSpace(r[0])
    ensures forall i :: 0 <= i < |s| - |r| ==> IsSpace(s[i])
  {
    if s != [] && IsSpace(s[0]) then TrimStart(s[1..]) else s
  }

  function TrimEnd(s: string): (r: string)
    ensures |r| <= |s| && r == s[..|r|]
    ensures r != [] ==> !IsSpace(r[|r| - 1])
    ensures forall i :: |r| <= i < |s| ==> IsSpace(s[i])
  {
    if s != [] && IsSpace(s[|s| - 1]) then TrimEnd(s[..|s| - 1]) else s
  }

  /** `r` is the slice of `s` at `i`, and everything of `s` around it is
      white space. */
  predicate TrimmedAt(s: string, r: string, i: int)
  {
    0 <= i <= |s| - |r| && r == s[i..i + |r|] &&
    (forall k :: 0 <= k < i ==> IsSpace(s[k])) &&
    (forall k :: i + |r| <= k < |s| ==> IsSpace(s[k]))
  }

  /** `s.trim()`: the slice of `s` that starts and ends with a non-space
      character, everything cut off being white space. */
  function Trim(s: string): (r: string)
    ensures exists i :: TrimmedAt(s, r, i)
    ensures r != [] ==> !IsSpace(r[0]) && !IsSpace(r[|r| - 1])
  {
    var t := TrimStart(s);
    var r := TrimEnd(t);
    TrimmedParts(s, t, r);
    r
  }

  /** Cutting white space from the front and then from the back leaves a
      slice of the original with only white space around it. */
  lemma TrimmedParts(s: string, t: string, r: string)
    requires |t| <= |s| && t == s[|s| - |t|..]
    requires forall k :: 0 <= k < |s| - |t| ==> IsSpace(s[k])
    requires |r| <= |t| && r == t[..|r|]
    requires forall k :: |r| <= k < |t| ==> IsSpace(t[k])
    ensures TrimmedAt(s, r, |s| - |t|)
  {
    var i := |s| - |t|;
    assert r == s[i..i + |r|];
    forall k | i + |r| <= k < |s|
      ensures IsSpace(s[k])
    {
      assert s[k] == t[k - i];
    }
  }

  lemma TrimNoSpace(s: string)
    requires forall k :: 0 <= k < |s| ==> !IsSpace(s[k])
    ensures Trim(s) == s
  {
  }

  /** Trimming adds no character. */
  lemma TrimAvoids(s: string, c: char)
    requires c !in s
    ensures c !in Trim(s)
  {
    var r := Trim(s);
    var i :| TrimmedAt(s, r, i);
    forall k | 0 <= k < |r|
      ensures r[k] != c
    {
      assert r[k] == s[i + k];
    }
  }

  lemma {:induction false} TrimStartSpaces(pre: string, s: string)
    requires forall k :: 0 <= k < |pre| ==> IsSpace(pre[k])
    requires s == [] || !IsSpace(s[0])
    ensures TrimStart(pre + s) == s
    decreases |pre|
  {
    if pre == [] {
      assert pre + s == s;
    } else {
      var rest := pre[1..];
      forall k | 0 <= k < |rest|
        ensures IsSpace(rest[k])
      {
        assert rest[k] == pre[k + 1];
      }
      TrimStartSpaces(rest, s);
      assert (pre + s)[0] == pre[0];
      assert (pre + s)[1..] == rest + s;
      assert TrimStart(pre + s) == TrimStart(rest + s);
    }
  }

  lemma {:induction false} TrimEndSpaces(s: string, post: string)
    requires forall k :: 0 <= k < |post| ==> IsSpace(post[k])
    requires s == [] || !IsSpace(s[|s| - 1])
    ensures TrimEnd(s + post) == s
    decreases |post|
  {
    if post == [] {
      assert s + post == s;
    } else {
      TrimEndSpaces(s, post[..|post| - 1]);
      assert (s + post)[|s + post| - 1] == post[|post| - 1];
      assert (s + post)[..|s + post| - 1] == s + post[..|post| - 1];
    }
  }

  /** Trimming an optional space on either side of text that neither
      starts nor ends with white space gives that text. */
  lemma TrimSpaced(s: string, before: bool, after: bool, padded: string)
    requires s != [] && !IsSpace(s[0]) && !IsSpace(s[|s| - 1])
    requires padded == (if before then " " else "") + s + (if after then " " else "")
    ensures Trim(padded) == s
  {
    var pre, post := (if before then " " else ""), (if after then " " else "");
    assert padded == pre + (s + post);
    TrimStartSpaces(pre, s + post);
    TrimEndSpaces(s, post);
  }

  /** The space-join of pieces whose empty first or last piece is dropped
      trims to the join of the rest, when those are non-empty and the join
      of them neither starts nor ends with white space. */
  lemma TrimJoinEmptyEnds(parts: seq<string>, a: nat, b: nat)
    requires a <= 1 && |parts| - 1 <= b <= |parts| && a < b
    requires a == 1 ==> parts[0] == ""
    requires b == |parts| - 1 ==> parts[|parts| - 1] == ""
    requires forall i :: 0 <= i < b - a ==> parts[a..b][i] != []
    requires var core := parts[a..b]; !IsSpace(core[0][0]) && !IsSpace(core[b - a - 1][|core[b - a - 1]| - 1])
    ensures Trim(Join(parts, " ")) == Join(parts[a..b], " ")
  {
    var core := parts[a..b];
    JoinEnds(core, " ");
    JoinEmptyEnds(parts, " ", a, b);
    TrimSpaced(Join(core, " "), a == 1, b == |parts| - 1, Join(parts, " "));
  }

  /** Text that neither starts nor ends with white space is its own trim. */
  lemma TrimUnchanged(s: string)
    requires s == [] || (!IsSpace(s[0]) && !IsSpace(s[|s| - 1]))
    ensures Trim(s) == s
  {
  }

  // ---------------------------------------------------------------------
  // Split and join on one separator character

  function CountChar(s: string, c: char): (n: nat)
    ensures n <= |s|
  {
    if s == [] then 0 else CountChar(s[..|s| - 1], c) + (if s[|s| - 1] == c then 1 else 0)
  }

  /** `s.split(sep)` for a one-character separator: the maximal pieces of `s`
      that do not contain `sep`, in order, one more than there are
      separators. */
  function Split(s: string, sep: char): (parts: seq<string>)
    ensures |parts| == CountChar(s, sep) + 1
    ensures forall k :: 0 <= k < |parts| ==> sep !in parts[k]
    decreases |s|
  {
    if s == [] then [""]
    else
      var init := Split(s[..|s| - 1], sep);
      var c := s[|s| - 1];
      if c == sep then init + [""]
      else init[..|init| - 1] + [init[|init| - 1] + [c]]
  }

  /** `parts.join(sep)` */
  function Join(parts: seq<string>, sep: string): string
  {
    if parts == [] then ""
    else if |parts| == 1 then parts[0]
    else Join(parts[..|parts| - 1], sep) + sep + parts[|parts| - 1]
  }

  lemma {:induction false} SplitNoSeparator(s: string, sep: char)
    requires sep !in s
    ensures Split(s, sep) == [s]
    decreases |s|
  {
    if s != [] {
      SplitNoSeparator(s[..|s| - 1], sep);
      assert s[..|s| - 1] + [s[|s| - 1]] == s;
    }
  }

  /** Splitting text that ends in a separator and a separator-free piece
      gives the pieces of the text before, then that piece. */
  lemma {:induction false} SplitAfterSeparator(a: string, sep: char, b: string)
    requires sep !in b
    ensures Split(a + [sep] + b, sep) == Split(a, sep) + [b]
    decreases |b|
  {
    if b == [] {
      assert (a + [sep] + b)[..|a + [sep] + b| - 1] == a;
    } else {
      var b', c := b[..|b| - 1], b[|b| - 1];
      SplitAfterSeparator(a, sep, b');
      assert (a + [sep] + b)[..|a + [sep] + b| - 1] == a + [sep] + b';
      assert b' + [c] == b;
    }
  }

  /** Joining pieces with a separator and splitting on it again gives the
      pieces, when none of them contains the separator. */
  lemma {:induction false} SplitJoin(parts: seq<string>, sep: char)
    requires |parts| >= 1
    requires forall k :: 0 <= k < |parts| ==> sep !in parts[k]
    ensures Split(Join(parts, [sep]), sep) == parts
  {
    if |parts| == 1 {
      SplitNoSeparator(parts[0], sep);
    } else {
      var init, last := parts[..|parts| - 1], parts[|parts| - 1];
      forall k | 0 <= k < |init|
        ensures sep !in init[k]
      {
        assert init[k] == parts[k];
      }
      SplitJoin(init, sep);
      assert Join(parts, [sep]) == Join(init, [sep]) + [sep] + last;
      SplitAfterSeparator(Join(init, [sep]), sep, last);
      assert init + [last] == parts;
    }
  }

  /** A character in neither the pieces nor the separator is not in the join. */
  lemma {:induction false} JoinAvoids(parts: seq<string>, sep: string, c: char)
    requires c !in sep && forall k :: 0 <= k < |parts| ==> c !in parts[k]
    ensures c !in Join(parts, sep)
  {
    if |parts| > 1 {
      JoinAvoids(parts[..|parts| - 1], sep, c);
    }
  }

  /** The join starts with the first piece and ends with the last. */
  lemma {:induction false} JoinEnds(parts: seq<string>, sep: string)
    requires |parts| >= 1 && forall k :: 0 <= k < |parts| ==> parts[k] != []
    ensures var j := Join(parts, sep);
            |j| >= 1 && j[0] == parts[0][0] && j[|j| - 1] == parts[|parts| - 1][|parts[|parts| - 1]| - 1]
  {
    if |parts| > 1 {
      JoinEnds(parts[..|parts| - 1], sep);
    }
  }

  /** An empty first piece puts a separator in front. */
  lemma {:induction false} JoinLeadingEmpty(parts: seq<string>, sep: string)
    requires |parts| >= 1
    ensures Join([""] + parts, sep) == sep + Join(parts, sep)
  {
    var all := [""] + parts;
    assert all[..|all| - 1] == [""] + parts[..|parts| - 1];
    if |parts| > 1 {
      JoinLeadingEmpty(parts[..|parts| - 1], sep);
    }
  }

  /** Dropping an empty first and an empty last piece leaves a separator
      for each in the join. */
  lemma JoinEmptyEnds(parts: seq<string>, sep: string, a: nat, b: nat)
    requires a <= 1 && |parts| - 1 <= b <= |parts| && a < b
    requires a == 1 ==> parts[0] == ""
    requires b == |parts| - 1 ==> parts[|parts| - 1] == ""
    ensures Join(parts, sep) == (if a == 1 then sep else "") + Join(parts[a..b], sep) + (if b == |parts| - 1 then sep else "")
  {
    var front := parts[..b];
    if b == |parts| - 1 {
      assert parts[..|parts| - 1] == front;
    } else {
      assert front == parts;
    }
    if a == 1 {
      assert front == [""] + parts[a..b];
      JoinLeadingEmpty(parts[a..b], sep);
    } else {
      assert front == parts[a..b];
    }
  }

  /** No two separators next to each other. */
  predicate NoDoubled(s: string, sep: char)
  {
    forall k :: 0 <= k < |s| - 1 ==> !(s[k] == sep && s[k + 1] == sep)
  }

  /** The last piece is empty exactly when the text is empty or ends with
      the separator. */
  lemma SplitLastEmpty(s: string, sep: char)
    ensures var p := Split(s, sep); p[|p| - 1] == [] <==> (s == [] || s[|s| - 1] == sep)
  {
  }

  /** Without doubled separators only the first and the last piece can be
      empty. */
  lemma {:induction false} SplitInteriorNonEmpty(s: string, sep: char)
    requires NoDoubled(s, sep)
    ensures var p := Split(s, sep); forall i :: 0 < i < |p| - 1 ==> p[i] != []
    decreases |s|
  {
    if s != [] {
      var s' := s[..|s| - 1];
      var init := Split(s', sep);
      SplitInteriorNonEmpty(s', sep);
      if s[|s| - 1] == sep && |init| > 1 {
        SplitLastEmpty(s', sep);
        assert s'[|s'| - 1] == s[|s| - 2];
      }
    }
  }

  /** Every character of every piece is a character of the text. */
  lemma {:induction false} SplitPartsWithin(s: string, sep: char)
    ensures forall i, c :: 0 <= i < |Split(s, sep)| && c in Split(s, sep)[i] ==> c in s
    decreases |s|
  {
    if s != [] {
      var s', last := s[..|s| - 1], s[|s| - 1];
      SplitPartsWithin(s', sep);
      var init, p := Split(s', sep), Split(s, sep);
      assert s == s' + [last];
      forall i, c | 0 <= i < |p| && c in p[i]
        ensures c in s
      {
        if last != sep && i == |p| - 1 {
          assert p[i] == init[i] + [last];
          assert c in init[i] || c == last;
        } else if i < |init| {
          assert p[i] == init[i];
          assert c in s';
        }
      }
    }
  }

  lemma LowerAppend(a: string, b: string)
    ensures Lower(a + b) == Lower(a) + Lower(b)
  {
  }

  /** Lower-casing a join lower-cases every piece, for a separator without
      upper-case letters. */
  lemma {:induction false} LowerJoin(parts: seq<string>, sep: string)
    requires forall k :: 0 <= k < |sep| ==> !IsUpperAscii(sep[k])
    ensures Lower(Join(parts, sep)) == Join(seq(|parts|, i requires 0 <= i < |parts| => Lower(parts[i])), sep)
  {
    var lowered := seq(|parts|, i requires 0 <= i < |parts| => Lower(parts[i]));
    if |parts| > 1 {
      var init := parts[..|parts| - 1];
      LowerJoin(init, sep);
      assert lowered[..|parts| - 1] == seq(|init|, i requires 0 <= i < |init| => Lower(init[i]));
      LowerAppend(Join(init, sep) + sep, parts[|parts| - 1]);
      LowerAppend(Join(init, sep), sep);
      assert Lower(sep) == sep;
    }
  }

  lemma {:induction false} JoinSplit(s: string, sep: char)
    ensures Join(Split(s, sep), [sep]) == s
    decreases |s|
  {
    if s != [] {
      var init := Split(s[..|s| - 1], sep);
      JoinSplit(s[..|s| - 1], sep);
      var c := s[|s| - 1];
      if c != sep {
        var n := |init|;
        if n > 1 {
          assert init[..n - 1][..n - 2] == init[..n - 2];
          assert (init[..n - 1] + [init[n - 1] + [c]])[..n - 1] == init[..n - 1];
        }
      }
      assert s == s[..|s| - 1] + [c];
    }
  }

  // ---------------------------------------------------------------------
  // Decimal numerals: `String(n)` and `Number(s)` on integers

  predicate IsDigit(c: char) { '0' <= c <= '9' }

  function DigitChar(d: nat): (c: char)
    requires d < 10
    ensures IsDigit(c) && c as int - '0' as int == d
  {
    ('0' as int + d) as char
  }

  /** The value of a string of decimal digits. */
  function DigitsValue(s: string): nat
    requires forall k :: 0 <= k < |s| ==> IsDigit(s[k])
  {
    if s == [] then 0
    else
      var c := s[|s| - 1];
      assert IsDigit(c);
      DigitsValue(s[..|s| - 1]) * 10 + (c as int - '0' as int)
  }

  /** `String(n)` for a natural number: its shortest decimal numeral. */
  function NatToString(n: nat): (s: string)
    ensures s != [] && forall k :: 0 <= k < |s| ==> IsDigit(s[k])
    ensures |s| > 1 ==> s[0] != '0'
  {
    if n < 10 then [DigitChar(n)] else NatToString(n / 10) + [DigitChar(n % 10)]
  }

  /** `String(i)` for an integer. */
  function IntToString(i: int): string
  {
    if i < 0 then "-" + NatToString(-i) else NatToString(i)
  }

  /** `Number(s)` on an optional minus sign followed by decimal digits; any
      other string is reported as `None` (JavaScript's NaN). */
  function ParseInt(s: string): Option<int>
  {
    if |s| > 1 && s[0] == '-' && forall k :: 1 <= k < |s| ==> IsDigit(s[k]) then
      Some(0 - DigitsValue(s[1..]))
    else if s != [] && forall k :: 0 <= k < |s| ==> IsDigit(s[k]) then
      Some(DigitsValue(s))
    else None
  }

  lemma {:induction false} DigitsOfNat(n: nat)
    ensures DigitsValue(NatToString(n)) == n
  {
    if n >= 10 {
      DigitsOfNat(n / 10);
      var s := NatToString(n);
      assert s[..|s| - 1] == NatToString(n / 10);
    }
  }

  /** Printing an integer and reading it back gives the integer. */
  lemma ParseIntToString(i: int)
    ensures ParseInt(IntToString(i)) == Some(i)
  {
    if i < 0 {
      ParseNegative(-i);
    } else {
      ParseNat(i);
    }
  }

  lemma ParseNat(n: nat)
    ensures ParseInt(NatToString(n)) == Some(n)
  {
    DigitsOfNat(n);
    var s := NatToString(n);
    assert s[0] != '-' by {
      assert IsDigit(s[0]);
    }
  }

  lemma ParseNegative(n: nat)
    requires n > 0
    ensures ParseInt("-" + NatToString(n)) == Some(0 - n)
  {
    var d := NatToString(n);
    DigitsOfNat(n);
    var s := "-" + d;
    assert s[1..] == d;
    assert forall k :: 1 <= k < |s| ==> IsDigit(s[k]) by {
      forall k | 1 <= k < |s| ensures IsDigit(s[k]) {
        assert s[k] == d[k - 1];
      }
    }
  }
}
