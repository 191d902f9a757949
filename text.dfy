/**
 * The string operations the text protocol of src/Java/UT3B2L.java leans on,
 * written out: splitting at a separator, joining, decimal numerals, and the
 * run-length compression of empty cells in a position string.
 */
module Text {

  // ---------------------------------------------------------------------
  // Splitting and joining.

  /**
   * The fields of s between the occurrences of sep, `s.split(sep)` read
   * plainly: n separators give n + 1 fields, empty ones included.
   */
  function Split(s: string, sep: char): (r: seq<string>)
    ensures |r| >= 1
    decreases |s|
  {
    if s == [] then [""]
    else
      var rest := Split(s[1..], sep);
      if s[0] == sep then [""] + rest else [[s[0]] + rest[0]] + rest[1..]
  }

  /** The fields with sep between each two: `String.join(sep, fields)`. */
  function Join(fields: seq<string>, sep: char): string
    requires |fields| >= 1
  {
    if |fields| == 1 then fields[0] else fields[0] + [sep] + Join(fields[1..], sep)
  }

  /** The fields one after the other: `s.replace(sep, "")` of the joined string. */
  function Concat(fields: seq<string>): string {
    if fields == [] then [] else fields[0] + Concat(fields[1..])
  }

  /** s with every occurrence of c removed: `s.replace(c, "")`. */
  function Without(s: string, c: char): (r: string)
    ensures c !in r
  {
    if s == [] then [] else (if s[0] == c then [] else [s[0]]) + Without(s[1..], c)
  }

  /** A string without the separator is a single field. */
  lemma {:induction false} SplitSingle(s: string, sep: char)
    requires sep !in s
    ensures Split(s, sep) == [s]
    decreases |s|
  {
    if s != [] {
      SplitSingle(s[1..], sep);
      assert [s[0]] + s[1..] == s;
    }
  }

  /** A field without the separator, then the separator, splits off as the first field. */
  lemma {:induction false} SplitAppend(a: string, b: string, sep: char)
    requires sep !in a
    ensures Split(a + [sep] + b, sep) == [a] + Split(b, sep)
    decreases |a|
  {
    var s := a + [sep] + b;
    if a == [] {
      assert s[1..] == b;
    } else {
      assert s[1..] == a[1..] + [sep] + b;
      SplitAppend(a[1..], b, sep);
      assert [a[0]] + a[1..] == a;
    }
  }

  /** Splitting the join of fields without the separator gives the fields back. */
  lemma {:induction false} SplitJoin(fields: seq<string>, sep: char)
    requires |fields| >= 1 && forall i :: 0 <= i < |fields| ==> sep !in fields[i]
    ensures Split(Join(fields, sep), sep) == fields
    decreases |fields|
  {
    if |fields| == 1 {
      SplitSingle(fields[0], sep);
    } else {
      SplitAppend(fields[0], Join(fields[1..], sep), sep);
      SplitJoin(fields[1..], sep);
    }
  }

  /** No field of a split holds the separator. */
  lemma {:induction false} SplitFields(s: string, sep: char)
    ensures forall i :: 0 <= i < |Split(s, sep)| ==> sep !in Split(s, sep)[i]
    decreases |s|
  {
    if s != [] {
      SplitFields(s[1..], sep);
      var rest := Split(s[1..], sep);
      if s[0] != sep {
        assert sep !in [s[0]] + rest[0];
      }
    }
  }

  /** Removing the separator from a string concatenates its fields. */
  lemma {:induction false} WithoutSplit(s: string, sep: char)
    ensures Without(s, sep) == Concat(Split(s, sep))
    decreases |s|
  {
    if s != [] {
      WithoutSplit(s[1..], sep);
      var rest := Split(s[1..], sep);
      assert Concat(rest) == rest[0] + Concat(rest[1..]);
      if s[0] != sep {
        var r := Split(s, sep);
        assert r[0] == [s[0]] + rest[0] && r[1..] == rest[1..];
        assert Concat(r) == r[0] + Concat(r[1..]);
      }
    }
  }

  /** Joining the fields of a split gives the string back. */
  lemma {:induction false} JoinSplit(s: string, sep: char)
    ensures Join(Split(s, sep), sep) == s
    decreases |s|
  {
    if s != [] {
      JoinSplit(s[1..], sep);
      var rest := Split(s[1..], sep);
      if s[0] == sep {
        assert Join([""] + rest, sep) == "" + [sep] + Join(rest, sep);
      } else if |rest| > 1 {
        var r := Split(s, sep);
        assert r[1..] == rest[1..];
        assert Join(r, sep) == r[0] + [sep] + Join(rest[1..], sep);
        assert Join(rest, sep) == rest[0] + [sep] + Join(rest[1..], sep);
      }
      assert [s[0]] + s[1..] == s;
    }
  }

  /** n empty fields. */
  function Empties(n: nat): (r: seq<string>)
    ensures |r| == n && forall i :: 0 <= i < n ==> r[i] == ""
  {
    seq(n, _ => "")
  }

  /** A string of n separators. */
  function Seps(n: nat, sep: char): (r: string)
    ensures |r| == n && forall i :: 0 <= i < n ==> r[i] == sep
  {
    seq(n, _ => sep)
  }

  /** The fields less their trailing empty ones. */
  function DropEmpty(fields: seq<string>): (r: seq<string>)
    ensures |r| <= |fields| && r == fields[..|r|]
    ensures r == [] || r[|r| - 1] != ""
    ensures forall i :: |r| <= i < |fields| ==> fields[i] == ""
  {
    if fields == [] then []
    else if fields[|fields| - 1] == "" then DropEmpty(fields[..|fields| - 1])
    else fields
  }

  /**
   * Java's `s.split(sep)` (limit 0): a string without the separator is its
   * own single field; otherwise the fields, less the trailing empty ones.
   */
  function JavaSplit(s: string, sep: char): (r: seq<string>)
    ensures forall i :: 0 <= i < |r| ==> sep !in r[i]
  {
    SplitFields(s, sep);
    if sep !in s then [s] else DropEmpty(Split(s, sep))
  }

  /** Two fields without the separator, joined by it, split back into the two, the second nonempty. */
  lemma JavaSplitTwo(a: string, b: string, sep: char)
    requires sep !in a && sep !in b && b != []
    ensures JavaSplit(a + [sep] + b, sep) == [a, b]
  {
    SplitAppend(a, b, sep);
    SplitSingle(b, sep);
    assert (a + [sep] + b)[|a|] == sep;
  }

  /** A field without the separator, followed by separators, splits into the field and empty fields. */
  lemma {:induction false} SplitTrailing(b: string, k: nat, sep: char)
    requires sep !in b
    ensures Split(b + Seps(k, sep), sep) == [b] + Empties(k)
    decreases k
  {
    if k == 0 {
      assert b + Seps(k, sep) == b;
      SplitSingle(b, sep);
    } else {
      assert b + Seps(k, sep) == b + [sep] + Seps(k - 1, sep);
      SplitAppend(b, Seps(k - 1, sep), sep);
      SplitTrailing("", k - 1, sep);
      assert "" + Seps(k - 1, sep) == Seps(k - 1, sep);
      assert [""] + Empties(k - 1) == Empties(k);
    }
  }

  /** Fields whose last one is not empty keep all of them. */
  lemma {:induction false} DropEmptyTrailing(fields: seq<string>, k: nat)
    requires |fields| >= 1 && fields[|fields| - 1] != ""
    ensures DropEmpty(fields + Empties(k)) == fields
    decreases k
  {
    if k > 0 {
      var f := fields + Empties(k);
      assert f[..|f| - 1] == fields + Empties(k - 1);
      DropEmptyTrailing(fields, k - 1);
    }
  }

  /** Joining fields followed by empty fields appends one separator per empty field. */
  lemma {:induction false} JoinTrailing(fields: seq<string>, k: nat, sep: char)
    requires |fields| >= 1
    ensures Join(fields + Empties(k), sep) == Join(fields, sep) + Seps(k, sep)
    decreases |fields| + k
  {
    var f := fields + Empties(k);
    if |fields| > 1 {
      assert f[1..] == fields[1..] + Empties(k);
      JoinTrailing(fields[1..], k, sep);
    } else if k > 0 {
      assert f[1..] == [""] + Empties(k - 1);
      JoinTrailing([""], k - 1, sep);
      assert [""] + Empties(k - 1) == Empties(k);
      assert Join([""], sep) + Seps(k - 1, sep) == Seps(k - 1, sep);
      assert Join(f, sep) == fields[0] + [sep] + Seps(k - 1, sep);
    } else {
      assert f == fields;
    }
  }

  /**
   * The string of a Java split: the retained fields joined, then one
   * separator per dropped trailing field.
   */
  lemma JavaSplitJoin(s: string, sep: char)
    requires |JavaSplit(s, sep)| >= 1
    ensures exists k :: s == Join(JavaSplit(s, sep), sep) + Seps(k, sep)
  {
    if sep !in s {
      assert s == Join([s], sep) + Seps(0, sep);
    } else {
      var all := Split(s, sep);
      var kept := DropEmpty(all);
      var k := |all| - |kept|;
      assert all == kept + Empties(k);
      JoinTrailing(kept, k, sep);
      JoinSplit(s, sep);
    }
  }

  /** A Java split of a string with the separator whose last field is not empty keeps every field. */
  lemma JavaSplitAll(s: string, sep: char)
    requires sep in s && Split(s, sep)[|Split(s, sep)| - 1] != ""
    ensures JavaSplit(s, sep) == Split(s, sep)
  {
  }

  /** Removing the separator concatenates the fields of a Java split. */
  lemma WithoutJavaSplit(s: string, sep: char)
    ensures Without(s, sep) == Concat(JavaSplit(s, sep))
  {
    WithoutSplit(s, sep);
    if sep !in s {
      SplitSingle(s, sep);
    } else {
      var all := Split(s, sep);
      var kept := DropEmpty(all);
      assert JavaSplit(s, sep) == kept;
      var k := |all| - |kept|;
      assert all == kept + Empties(k);
      ConcatEmpties(kept, k);
      calc {
        Without(s, sep);
        Concat(all);
        Concat(kept + Empties(k));
        Concat(kept);
      }
    }
  }

  lemma {:induction false} ConcatEmpties(fields: seq<string>, k: nat)
    ensures Concat(fields + Empties(k)) == Concat(fields)
    decreases |fields| + k
  {
    var f := fields + Empties(k);
    if fields != [] {
      assert f[1..] == fields[1..] + Empties(k);
      ConcatEmpties(fields[1..], k);
    } else if k > 0 {
      assert f[1..] == [] + Empties(k - 1);
      ConcatEmpties([], k - 1);
    } else {
      assert f == [];
    }
  }

  /** Concatenating rows of nine characters places character p of row r at 9 * r + p. */
  lemma {:induction false} ConcatIndex(rows: seq<string>, r: nat, p: nat)
    requires forall i :: 0 <= i < |rows| ==> |rows[i]| == 9
    requires r < |rows| && p < 9
    ensures |Concat(rows)| == 9 * |rows|
    ensures Concat(rows)[9 * r + p] == rows[r][p]
    decreases |rows|
  {
    ConcatLength(rows);
    var tail := Concat(rows[1..]);
    assert Concat(rows) == rows[0] + tail;
    if r > 0 {
      ConcatIndex(rows[1..], r - 1, p);
      assert Concat(rows)[9 + (9 * (r - 1) + p)] == tail[9 * (r - 1) + p];
    }
  }

  lemma {:induction false} ConcatLength(rows: seq<string>)
    requires forall i :: 0 <= i < |rows| ==> |rows[i]| == 9
    ensures |Concat(rows)| == 9 * |rows|
    decreases |rows|
  {
    if rows != [] {
      ConcatLength(rows[1..]);
    }
  }

  // ---------------------------------------------------------------------
  // Decimal numerals.

  function DigitChar(d: nat): (c: char)
    requires d < 10
    ensures '0' <= c <= '9' && c as int - '0' as int == d
  {
    ('0' as int + d) as char
  }

  predicate AllDigits(s: string) {
    forall i :: 0 <= i < |s| ==> '0' <= s[i] <= '9'
  }

  /** The decimal numeral of n, without leading zeros. */
  function NatString(n: nat): (s: string)
    ensures |s| >= 1 && AllDigits(s)
    decreases n
  {
    if n < 10 then [DigitChar(n)] else NatString(n / 10) + [DigitChar(n % 10)]
  }

  /** The decimal numeral of n with a '-' before a negative one: `"" + n`, `str(n)`, `format!("{}", n)`. */
  function IntString(n: int): string {
    if n < 0 then "-" + NatString(-n) else NatString(n)
  }

  /** The number a numeral denotes. */
  function ParseNat(s: string): nat
    requires AllDigits(s)
  {
    if s == [] then 0 else 10 * ParseNat(s[..|s| - 1]) + (s[|s| - 1] as int - '0' as int)
  }

  /** Reading a numeral back gives the number. */
  lemma {:induction false} ParseNatString(n: nat)
    ensures ParseNat(NatString(n)) == n
    decreases n
  {
    if n >= 10 {
      ParseNatString(n / 10);
      var s := NatString(n);
      assert s[..|s| - 1] == NatString(n / 10);
    }
  }

  /** Different naturals have different numerals. */
  lemma NatStringInjective(m: nat, n: nat)
    requires NatString(m) == NatString(n)
    ensures m == n
  {
    ParseNatString(m);
    ParseNatString(n);
  }

  /** Different integers have different numerals. */
  lemma IntStringInjective(m: int, n: int)
    requires IntString(m) == IntString(n)
    ensures m == n
  {
    var sm, sn := IntString(m), IntString(n);
    assert (sm[0] == '-') == (m < 0) && (sn[0] == '-') == (n < 0);
    if m < 0 {
      assert sm[1..] == NatString(-m) && sn[1..] == NatString(-n);
      NatStringInjective(-m, -n);
    } else {
      NatStringInjective(m, n);
    }
  }

  // ---------------------------------------------------------------------
  // Runs of empty cells.

  /** A string of n dots. */
  function Dots(n: nat): (s: string)
    ensures |s| == n && forall i :: 0 <= i < n ==> s[i] == '.'
  {
    seq(n, _ => '.')
  }

  /** The number of dots s starts with. */
  function LeadingDots(s: string): (n: nat)
    ensures n <= |s| && forall i :: 0 <= i < n ==> s[i] == '.'
  {
    if s != [] && s[0] == '.' then 1 + LeadingDots(s[1..]) else 0
  }

  /**
   * The chain `.replace(".........", "9") .. .replace(".", "1")`: every
   * run of dots becomes the digit of its length, a run longer than nine
   * being taken nine at a time from the left.
   */
  function Compress(s: string): (r: string)
    ensures '.' !in r
    decreases |s|
  {
    if s == [] then []
    else if s[0] == '.' then
      var n := if LeadingDots(s) < 9 then LeadingDots(s) else 9;
      [DigitChar(n)] + Compress(s[n..])
    else [s[0]] + Compress(s[1..])
  }

  /** One character of the chain `.replace("1", ".") .. .replace("9", ".........")`. */
  function ExpandChar(c: char): string {
    if '1' <= c <= '9' then Dots(c as int - '0' as int) else [c]
  }

  /** The chain `.replace("1", ".") .. .replace("9", ".........")`: every digit 1..9 becomes that many dots. */
  function Expand(s: string): string {
    if s == [] then [] else ExpandChar(s[0]) + Expand(s[1..])
  }

  predicate NoRunDigits(s: string) {
    forall i :: 0 <= i < |s| ==> !('1' <= s[i] <= '9')
  }

  lemma {:induction false} ExpandAppend(a: string, b: string)
    ensures Expand(a + b) == Expand(a) + Expand(b)
    decreases |a|
  {
    if a == [] {
      assert a + b == b;
    } else {
      assert (a + b)[0] == a[0] && (a + b)[1..] == a[1..] + b;
      ExpandAppend(a[1..], b);
    }
  }

  /** A string without the digits 1..9 is left as it is. */
  lemma {:induction false} ExpandPlain(s: string)
    requires NoRunDigits(s)
    ensures Expand(s) == s
    decreases |s|
  {
    if s != [] {
      ExpandPlain(s[1..]);
      assert [s[0]] + s[1..] == s;
    }
  }

  /** The digit of a run of n dots expands to the run. */
  lemma DigitRun(n: nat)
    requires 1 <= n <= 9
    ensures Expand([DigitChar(n)]) == Dots(n)
  {
    assert Expand([DigitChar(n)]) == ExpandChar(DigitChar(n)) + Expand([]);
  }

  /** Expanding a compressed string without the digits 1..9 gives it back. */
  lemma {:induction false} ExpandCompress(s: string)
    requires NoRunDigits(s)
    ensures Expand(Compress(s)) == s
    decreases |s|
  {
    if s != [] {
      if s[0] == '.' {
        var n := if LeadingDots(s) < 9 then LeadingDots(s) else 9;
        RunCompressed(s, n);
        assert NoRunDigits(s[n..]);
        ExpandCompress(s[n..]);
        RunBack(s, n, Compress(s[n..]));
      } else {
        assert NoRunDigits(s[1..]);
        ExpandCompress(s[1..]);
        ExpandKept(s);
      }
    }
  }

  /** A digit 1..9 in front of a compressed string expands to that many dots in front. */
  lemma ExpandDigit(n: nat, c: string)
    requires 1 <= n <= 9
    ensures Expand([DigitChar(n)] + c) == Dots(n) + Expand(c)
  {
    ExpandAppend([DigitChar(n)], c);
    DigitRun(n);
  }

  /** The digit n before a string that expands to s[n..] expands to s when s[..n] is a run of n dots. */
  lemma RunBack(s: string, n: nat, rest: string)
    requires 1 <= n <= 9 && n <= |s| && s[..n] == Dots(n) && Expand(rest) == s[n..]
    ensures Expand([DigitChar(n)] + rest) == s
  {
    ExpandDigit(n, rest);
    assert s[..n] + s[n..] == s;
  }

  /** The leading run s[..n] of a string starting with a dot is compressed to the digit n. */
  lemma RunCompressed(s: string, n: nat)
    requires s != [] && s[0] == '.' && n == (if LeadingDots(s) < 9 then LeadingDots(s) else 9)
    ensures 1 <= n <= 9 && n <= |s| && s[..n] == Dots(n)
    ensures Compress(s) == [DigitChar(n)] + Compress(s[n..])
  {
    assert s[..n] == Dots(n);
  }

  /** A character other than a dot is kept as it is before the rest. */
  lemma ExpandKept(s: string)
    requires s != [] && s[0] != '.' && !('1' <= s[0] <= '9')
    requires Expand(Compress(s[1..])) == s[1..]
    ensures Expand(Compress(s)) == s
  {
    assert Compress(s) == [s[0]] + Compress(s[1..]);
    ExpandAppend([s[0]], Compress(s[1..]));
    assert Expand([s[0]]) == [s[0]] + Expand([]);
    assert [s[0]] + s[1..] == s;
  }
}
