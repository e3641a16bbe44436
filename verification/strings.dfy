/** Python string operations as the application uses them: `str.split(c)` with
    a one-character separator, `c.join(fields)`, `str.strip()` and
    `str.strip(chars)`, `str.replace(' ', '')`, `str.lower()` and `str(n)`
    for integers. Strings are sequences of Unicode scalar values. */
module Strings {
  import opened Wrappers
  import Seqs

  /** How many times `c` occurs in `s`. */
  function Occurrences(s: string, c: char): nat
  {
    multiset(s)[c]
  }

  /** `s.split(sep)`: the pieces between the separators. There is always at
      least one field, so `"".split(',')` is `[""]`. */
  function Split(s: string, sep: char): (fields: seq<string>)
    ensures |fields| == Occurrences(s, sep) + 1
    ensures forall k :: 0 <= k < |fields| ==> sep !in fields[k]
    decreases |s|
  {
    if sep !in s then [s]
    else
      var i := Seqs.IndexOf(s, sep);
      OccurrencesAfterFirst(s, sep, i);
      var rest := Split(s[i + 1..], sep);
      SeparatorFreeCons(s[..i], rest, sep);
      [s[..i]] + rest
  }

  /** The separator at `i` is the first, so every later one lies after it. */
  lemma OccurrencesAfterFirst(s: string, sep: char, i: nat)
    requires i < |s| && s[i] == sep && sep !in s[..i]
    ensures Occurrences(s, sep) == Occurrences(s[i + 1..], sep) + 1
  {
    assert s == s[..i] + [sep] + s[i + 1..];
    assert multiset(s) == multiset(s[..i]) + multiset{sep} + multiset(s[i + 1..]);
  }

  /** `sep.join(fields)`. */
  function Join(fields: seq<string>, sep: char): string
  {
    if |fields| == 0 then ""
    else if |fields| == 1 then fields[0]
    else fields[0] + [sep] + Join(fields[1..], sep)
  }

  /** No field contains the separator, so joining loses no boundary. */
  predicate SeparatorFree(fields: seq<string>, sep: char)
  {
    forall k :: 0 <= k < |fields| ==> sep !in fields[k]
  }

  /** A separator-free field in front of separator-free fields. */
  lemma SeparatorFreeCons(x: string, xs: seq<string>, sep: char)
    requires sep !in x && SeparatorFree(xs, sep)
    ensures SeparatorFree([x] + xs, sep)
  {
    assert forall k :: 1 <= k < |[x] + xs| ==> ([x] + xs)[k] == xs[k - 1];
  }

  /** Two separator-free lists of fields stay separator-free together. */
  lemma SeparatorFreeConcat(a: seq<string>, b: seq<string>, sep: char)
    requires SeparatorFree(a, sep) && SeparatorFree(b, sep)
    ensures SeparatorFree(a + b, sep)
  {
    forall k | 0 <= k < |a + b| ensures sep !in (a + b)[k] {
      if k >= |a| { assert (a + b)[k] == b[k - |a|]; }
    }
  }

  /** Splitting and joining again gives back the original string. */
  lemma {:induction false} JoinSplit(s: string, sep: char)
    ensures Join(Split(s, sep), sep) == s
    decreases |s|
  {
    if sep in s {
      var i := Seqs.IndexOf(s, sep);
      var rest := Split(s[i + 1..], sep);
      JoinSplit(s[i + 1..], sep);
      var fields := Split(s, sep);
      assert fields == [s[..i]] + rest;
      assert |fields| > 1 && fields[0] == s[..i] && fields[1..] == rest;
      assert Join(fields, sep) == s[..i] + [sep] + Join(rest, sep);
      assert s == s[..i] + [sep] + s[i + 1..];
    }
  }

  lemma SplitAtFirst(f: string, sep: char, t: string)
    requires sep !in f
    ensures Split(f + [sep] + t, sep) == [f] + Split(t, sep)
  {
    var s := f + [sep] + t;
    assert s[|f|] == sep;
    var i := Seqs.IndexOf(s, sep);
    assert i == |f|;
    assert s[..i] == f;
    assert s[i + 1..] == t;
  }

  /** Joining separator-free fields and splitting again gives back the fields. */
  lemma {:induction false} SplitJoin(fields: seq<string>, sep: char)
    requires |fields| >= 1 && SeparatorFree(fields, sep)
    ensures Split(Join(fields, sep), sep) == fields
    decreases |fields|
  {
    if |fields| > 1 {
      SplitJoin(fields[1..], sep);
      SplitAtFirst(fields[0], sep, Join(fields[1..], sep));
      assert fields == [fields[0]] + fields[1..];
    }
  }

  /** Joining one more field appends the separator and that field. */
  lemma {:induction false} JoinAppend(fields: seq<string>, x: string, sep: char)
    requires |fields| >= 1
    ensures Join(fields + [x], sep) == Join(fields, sep) + [sep] + x
    decreases |fields|
  {
    if |fields| > 1 {
      JoinAppend(fields[1..], x, sep);
      assert (fields + [x])[1..] == fields[1..] + [x];
    }
  }

  /** Joining several fields is joining the earlier ones, the separator, and the last. */
  lemma JoinInitLast(fields: seq<string>, sep: char)
    requires |fields| > 1
    ensures Join(fields, sep) == Join(fields[..|fields| - 1], sep) + [sep] + fields[|fields| - 1]
  {
    var init := fields[..|fields| - 1];
    var last := fields[|fields| - 1];
    assert init + [last] == fields;
    JoinAppend(init, last, sep);
  }

  /** A string with several fields is its earlier fields joined, the
      separator, and its last field. */
  lemma SplitInitLast(s: string, sep: char)
    requires |Split(s, sep)| > 1
    ensures s == Join(Split(s, sep)[..|Split(s, sep)| - 1], sep) + [sep] + Split(s, sep)[|Split(s, sep)| - 1]
  {
    JoinSplit(s, sep);
    JoinInitLast(Split(s, sep), sep);
  }

  /** A string made of `d`, the separator and `last` starts with `d`. */
  lemma PrefixBeforeSeparator(s: string, d: string, last: string, sep: char)
    requires s == d + [sep] + last
    ensures |d| < |s| && s[..|d|] == d && s[|d|] == sep
  {
  }

  /** Appending `sep + x` to a string adds exactly the field `x`. */
  lemma SplitAppend(s: string, x: string, sep: char)
    requires sep !in x
    ensures Split(s + [sep] + x, sep) == Split(s, sep) + [x]
  {
    var fields := Split(s, sep);
    JoinSplit(s, sep);
    JoinAppend(fields, x, sep);
    SplitJoin(fields + [x], sep);
  }

  /** Joining two non-empty lists of fields puts one separator between them. */
  lemma {:induction false} JoinConcat(a: seq<string>, b: seq<string>, sep: char)
    requires |a| >= 1 && |b| >= 1
    ensures Join(a + b, sep) == Join(a, sep) + [sep] + Join(b, sep)
    decreases |a|
  {
    if |a| > 1 {
      JoinConcat(a[1..], b, sep);
      assert (a + b)[1..] == a[1..] + b;
    }
  }

  /** Splitting `s + sep + t` gives the fields of `s` followed by those of `t`. */
  lemma SplitConcat(s: string, t: string, sep: char)
    ensures Split(s + [sep] + t, sep) == Split(s, sep) + Split(t, sep)
  {
    var a := Split(s, sep);
    var b := Split(t, sep);
    JoinSplit(s, sep);
    JoinSplit(t, sep);
    JoinConcat(a, b, sep);
    SeparatorFreeConcat(a, b, sep);
    SplitJoin(a + b, sep);
  }

  /** A character absent from a string is absent from each of its fields. */
  lemma {:induction false} SplitFieldsAvoid(s: string, sep: char, c: char)
    requires c !in s
    ensures forall k :: 0 <= k < |Split(s, sep)| ==> c !in Split(s, sep)[k]
    decreases |s|
  {
    if sep in s {
      var i := Seqs.IndexOf(s, sep);
      assert c !in s[..i] && c !in s[i + 1..] by {
        assert s == s[..i] + [sep] + s[i + 1..];
        assert multiset(s) == multiset(s[..i]) + multiset{sep} + multiset(s[i + 1..]);
        assert c !in multiset(s);
      }
      SplitFieldsAvoid(s[i + 1..], sep, c);
    }
  }

  /** The whitespace characters of Python's `str.isspace()`. */
  predicate IsSpace(c: char)
  {
    || c == ' ' || c == '\t' || c == '\n' || c == '\r'
    || c == '\U{0B}' || c == '\U{0C}'
    || ('\U{1C}' <= c <= '\U{1F}')
    || c == '\U{85}' || c == '\U{A0}' || c == '\U{1680}'
    || ('\U{2000}' <= c <= '\U{200A}')
    || c == '\U{2028}' || c == '\U{2029}' || c == '\U{202F}' || c == '\U{205F}' || c == '\U{3000}'
  }

  /** Which characters a strip removes: Python's whitespace for `strip()`,
      or an explicit set for `strip(chars)`. */
  datatype StripSet = Whitespace | Chars(cs: set<char>)

  predicate Strips(how: StripSet, c: char)
  {
    match how
    case Whitespace => IsSpace(c)
    case Chars(cs) => c in cs
  }

  /** `s.lstrip(...)`: the longest suffix of `s` not starting with a stripped character. */
  function StripLeft(s: string, how: StripSet): (r: string)
    ensures |r| <= |s| && r == s[|s| - |r|..]
    ensures r == [] || !Strips(how, r[0])
    ensures forall k :: 0 <= k < |s| - |r| ==> Strips(how, s[k])
    decreases |s|
  {
    if |s| > 0 && Strips(how, s[0]) then StripLeft(s[1..], how) else s
  }

  /** `s.rstrip(...)`: the longest prefix of `s` not ending with a stripped character. */
  function StripRight(s: string, how: StripSet): (r: string)
    ensures |r| <= |s| && r == s[..|r|]
    ensures r == [] || !Strips(how, r[|r| - 1])
    ensures forall k :: |r| <= k < |s| ==> Strips(how, s[k])
    decreases |s|
  {
    if |s| > 0 && Strips(how, s[|s| - 1]) then StripRight(s[..|s| - 1], how) else s
  }

  /** `s.strip()` / `s.strip(chars)`: both ends. */
  function Strip(s: string, how: StripSet): string
  {
    StripRight(StripLeft(s, how), how)
  }

  /** Stripping only removes characters, so it never introduces one. */
  lemma StripAvoid(s: string, how: StripSet, c: char)
    requires c !in s
    ensures c !in Strip(s, how)
  {
    var l := StripLeft(s, how);
    var r := StripRight(l, how);
    assert l == s[|s| - |l|..];
    assert r == l[..|r|];
    forall k | 0 <= k < |r| ensures r[k] != c {
      assert r[k] == l[k];
      assert l[k] == s[|s| - |l| + k];
    }
  }

  /** A string that neither starts nor ends with a stripped character is left alone. */
  lemma StripUnchanged(s: string, how: StripSet)
    requires s == [] || (!Strips(how, s[0]) && !Strips(how, s[|s| - 1]))
    ensures Strip(s, how) == s
  {
  }

  /** Stripping removes trailing stripped characters added to an already stripped string. */
  lemma StripTrailing(s: string, tail: string, how: StripSet)
    requires s == [] || (!Strips(how, s[0]) && !Strips(how, s[|s| - 1]))
    requires forall k :: 0 <= k < |tail| ==> Strips(how, tail[k])
    ensures Strip(s + tail, how) == s
  {
    var t := s + tail;
    if s == [] {
      assert t == tail;
      var l := StripLeft(t, how);
      assert l == [];
    } else {
      var l := StripLeft(t, how);
      assert l == t;
      var r := StripRight(l, how);
      assert !Strips(how, t[|s| - 1]);
      assert |r| >= |s|;
      assert forall k :: |s| <= k < |t| ==> t[k] == tail[k - |s|];
      assert r[|r| - 1] == t[|r| - 1];
      assert |r| == |s|;
    }
  }

  /** `s.replace(' ', '')`. */
  function RemoveSpaces(s: string): (r: string)
    ensures ' ' !in r
    ensures forall c :: c != ' ' ==> multiset(r)[c] == multiset(s)[c]
  {
    if s == [] then ""
    else
      assert s == [s[0]] + s[1..];
      (if s[0] == ' ' then "" else [s[0]]) + RemoveSpaces(s[1..])
  }

  /** The capital letters of the Basic Latin and Latin-1 blocks whose lower
      case is one character: A-Z and À-Þ except ×. */
  predicate IsUpper(c: char)
  {
    'A' <= c <= 'Z' || ('\U{C0}' <= c <= '\U{DE}' && c != '\U{D7}')
  }

  /** `c.lower()` for those letters: each sits 32 code points below its small letter. */
  function LowerChar(c: char): (l: char)
    ensures !IsUpper(l)
    ensures !IsUpper(c) ==> l == c
    ensures IsUpper(c) ==> l as int == c as int + 32
  {
    if IsUpper(c) then (c as int + 32) as char else c
  }

  /** `s.lower()`: no capital is left, every other character stays, and each
      capital becomes its small letter in place. */
  function Lower(s: string): (r: string)
    ensures |r| == |s|
    ensures forall k :: 0 <= k < |r| ==> !IsUpper(r[k])
    ensures forall k :: 0 <= k < |s| && !IsUpper(s[k]) ==> r[k] == s[k]
    ensures forall k :: 0 <= k < |s| && IsUpper(s[k]) ==> r[k] as int == s[k] as int + 32
  {
    seq(|s|, k requires 0 <= k < |s| => LowerChar(s[k]))
  }

  /** Lower-casing twice is lower-casing once. */
  lemma LowerIdempotent(s: string)
    ensures Lower(Lower(s)) == Lower(s)
  {
  }

  /** Lower-casing never creates or destroys a comma. */
  lemma {:induction false} LowerKeepsComma(s: string)
    ensures Occurrences(Lower(s), ',') == Occurrences(s, ',')
    decreases |s|
  {
    if s != [] {
      LowerKeepsComma(s[1..]);
      var l := Lower(s);
      assert l[1..] == Lower(s[1..]);
      OccurrencesCons(l, ',');
      OccurrencesCons(s, ',');
      assert l[0] == ',' <==> s[0] == ',';
    }
  }

  /** Counting in a non-empty string: its head, then its tail. */
  lemma OccurrencesCons(s: string, c: char)
    requires s != []
    ensures Occurrences(s, c) == (if s[0] == c then 1 else 0) + Occurrences(s[1..], c)
  {
    assert s == [s[0]] + s[1..];
    assert multiset(s) == multiset{s[0]} + multiset(s[1..]);
  }

  /** Lower-casing a joined string lower-cases each field. */
  lemma {:induction false} LowerJoin(fields: seq<string>)
    ensures Lower(Join(fields, ',')) == Join(seq(|fields|, k requires 0 <= k < |fields| => Lower(fields[k])), ',')
    decreases |fields|
  {
    var lows := seq(|fields|, k requires 0 <= k < |fields| => Lower(fields[k]));
    if |fields| > 1 {
      LowerJoin(fields[1..]);
      assert lows[1..] == seq(|fields[1..]|, k requires 0 <= k < |fields[1..]| => Lower(fields[1..][k]));
      var j := Join(fields[1..], ',');
      assert Lower(fields[0] + [','] + j) == Lower(fields[0]) + [','] + Lower(j);
    }
  }

  function DigitChar(d: nat): char
    requires d < 10
  {
    ('0' as int + d) as char
  }

  predicate IsDigit(c: char)
  {
    '0' <= c <= '9'
  }

  /** `str(n)` for `n >= 0`: decimal digits, no leading zero. */
  function NatString(n: nat): (r: string)
    ensures |r| >= 1 && (forall k :: 0 <= k < |r| ==> IsDigit(r[k]))
    ensures |r| > 1 ==> r[0] != '0'
  {
    if n < 10 then [DigitChar(n)] else NatString(n / 10) + [DigitChar(n % 10)]
  }

  /** `str(n)` for any Python integer. */
  function DecimalString(n: int): string
  {
    if n < 0 then "-" + NatString(-n) else NatString(n)
  }

  predicate AllDigits(s: string)
  {
    |s| >= 1 && forall k :: 0 <= k < |s| ==> IsDigit(s[k])
  }

  /** The value of a non-empty string of decimal digits. */
  function DigitsValue(s: string): nat
    requires AllDigits(s)
  {
    assert IsDigit(s[|s| - 1]);
    var last := (s[|s| - 1] as int - '0' as int) as nat;
    if |s| == 1 then last else 10 * DigitsValue(s[..|s| - 1]) + last
  }

  /** `int(s)` for the strings `str(n)` produces: an optional minus sign then digits. */
  function ParseDecimal(s: string): Option<int>
  {
    if |s| >= 1 && s[0] == '-' && AllDigits(s[1..]) then var v: int := DigitsValue(s[1..]); Some(-v)
    else if AllDigits(s) then Some(DigitsValue(s))
    else None
  }

  lemma {:induction false} NatStringValue(n: nat)
    ensures DigitsValue(NatString(n)) == n
  {
    if n >= 10 {
      NatStringValue(n / 10);
      var r := NatString(n);
      assert r[..|r| - 1] == NatString(n / 10);
    }
  }

  /** A minus sign followed by digits reads back as the negated value. */
  lemma NegativeValue(d: string)
    requires AllDigits(d)
    ensures ParseDecimal("-" + d) == Some(-(DigitsValue(d) as int))
  {
    var r := "-" + d;
    assert r[0] == '-' && r[1..] == d;
  }

  /** Digits alone read back as their value. */
  lemma PlainValue(d: string)
    requires AllDigits(d)
    ensures ParseDecimal(d) == Some(DigitsValue(d))
  {
    assert IsDigit(d[0]);
  }

  /** `str(n)` reads back as `n`. */
  lemma DecimalRoundTrip(n: int)
    ensures ParseDecimal(DecimalString(n)) == Some(n)
  {
    if n < 0 {
      var m: nat := -n;
      assert DecimalString(n) == "-" + NatString(m);
      NatStringValue(m);
      NegativeValue(NatString(m));
      assert -(DigitsValue(NatString(m)) as int) == n;
    } else {
      NatStringValue(n);
      PlainValue(NatString(n));
    }
  }

  /** `str(n)` never contains a comma, so it is always a single field. */
  lemma DecimalHasNoComma(n: int)
    ensures ',' !in DecimalString(n)
  {
    var d := NatString(if n < 0 then -n else n);
    assert forall k :: 0 <= k < |d| ==> d[k] != ',';
  }
}
