/** Sizes written as a decimal number and an optional unit. */
module SizeParser {
  import opened Words
  import opened TaskStatus

  /** A size in bytes, or why there is none: the text is not a size, or its value does not fit in
      64 bits. */
  datatype Size = Invalid | Overflow | Bytes(n: nat)

  predicate IsSpace(c: char) { c == ' ' || 9 <= c as int <= 13 }

  predicate IsDigit(c: char) { '0' <= c <= '9' }

  predicate AllDigits(s: string) { forall i :: 0 <= i < |s| ==> IsDigit(s[i]) }

  function Strip(s: string): string {
    if s == "" then "" else (if IsSpace(s[0]) then "" else [s[0]]) + Strip(s[1..])
  }

  /** The units in the order in which they are tried; the last entry stands for no unit. */
  const UNITS: seq<(string, nat)> := [
    ("GiB", 0x4000_0000), ("GB", 1_000_000_000), ("G", 1_000_000_000),
    ("MiB", 0x10_0000), ("MB", 1_000_000), ("M", 1_000_000),
    ("KiB", 0x400), ("KB", 1_000), ("K", 1_000),
    ("B", 1), ("", 1)]

  const NO_UNIT := 10

  function Unit(k: nat): string
    requires k <= NO_UNIT
  {
    UNITS[k].0
  }

  /** The number that a string of digits spells. */
  function Number(digits: string): nat
    requires AllDigits(digits)
  {
    if digits == "" then 0 else 10 * Number(digits[..|digits| - 1]) + (digits[|digits| - 1] as int - '0' as int)
  }

  /** The text is the digits followed by the unit. */
  predicate Reads(text: string, digits: string, k: nat) {
    k <= NO_UNIT && text == digits + Unit(k) && digits != "" && AllDigits(digits)
  }

  ghost predicate Readable(text: string) { exists digits, k :: Reads(text, digits, k) }

  // ---- double precision ----

  const MANTISSA: nat := 0x20_0000_0000_0000

  /** The spacing of the double precision numbers around `n`. */
  function Spacing(n: nat): (s: nat)
    ensures s > 0 && n < s * MANTISSA
    ensures s == 1 || s * MANTISSA <= 2 * n
  {
    if n < MANTISSA then 1 else 2 * Spacing(n / 2)
  }

  /** The double precision number nearest to `n`, the even one of two. */
  function Rounded(n: nat): nat {
    var s := Spacing(n);
    var q, rest := n / s, n % s;
    if 2 * rest > s || (2 * rest == s && q % 2 == 1) then n - rest + s else n - rest
  }

  function Product(value: nat, factor: nat): Size {
    var v := Rounded(Rounded(value) * factor);
    if v < WORD64 then Bytes(v) else Overflow
  }

  lemma RoundedNear(n: nat)
    ensures n < MANTISSA ==> Rounded(n) == n
    ensures MANTISSA * (Rounded(n) - n) <= n && MANTISSA * (n - Rounded(n)) <= n
  {
    var q := RoundedNearest(n);
  }

  /** The result is a multiple of the spacing, at most half of it away, and an even one half way. */
  lemma RoundedNearest(n: nat) returns (q: nat)
    ensures Rounded(n) == q * Spacing(n)
    ensures 2 * (Rounded(n) - n) <= Spacing(n) && 2 * (n - Rounded(n)) <= Spacing(n)
    ensures 2 * (Rounded(n) - n) == Spacing(n) || 2 * (n - Rounded(n)) == Spacing(n) ==> q % 2 == 0
  {
    var s := Spacing(n);
    q := n / s;
    DivMod(n, s);
    if 2 * (n % s) > s || (2 * (n % s) == s && q % 2 == 1) {
      OneMore(q, s);
      q := q + 1;
    }
  }

  lemma DivMod(n: nat, s: nat)
    requires s > 0
    ensures n == n / s * s + n % s
  {
  }

  lemma OneMore(q: nat, s: nat)
    ensures (q + 1) * s == q * s + s
  {
  }

  /** Below two to the 53rd a number times a factor is exact. */
  lemma ProductExact(value: nat, factor: nat)
    requires factor > 0 && value * factor < MANTISSA
    ensures Product(value, factor) == Bytes(value * factor)
  {
    assert value <= value * factor;
    RoundedNear(value);
    RoundedNear(value * factor);
  }

  // ---- finding a unit ----

  predicate OccursAt(s: string, sub: string, p: nat) { p + |sub| <= |s| && s[p..p + |sub|] == sub }

  /** The first position at or after `from` where `sub` occurs. */
  function Find(s: string, sub: string, from: nat := 0): (r: Option<nat>)
    requires from <= |s|
    ensures r.Some? ==> from <= r.value <= |s| && OccursAt(s, sub, r.value)
    ensures r.Some? ==> forall p :: from <= p < r.value ==> !OccursAt(s, sub, p)
    ensures r.None? ==> forall p :: from <= p <= |s| ==> !OccursAt(s, sub, p)
    decreases |s| - from
  {
    if OccursAt(s, sub, from) then Some(from)
    else if from == |s| then None
    else Find(s, sub, from + 1)
  }

  lemma UnitShape(k: nat)
    requires k <= NO_UNIT
    ensures var u := Unit(k);
      && |u| <= 3 && (u == "" <==> k == NO_UNIT) && (|u| == 1 && u[0] == 'B' <==> k == 9)
      && (|u| == 3 ==> u[1] == 'i' && u[2] == 'B') && (|u| == 2 ==> u[1] == 'B')
      && (k < NO_UNIT ==> !IsDigit(u[0]) && u[0] != 'i')
      && (|u| > 1 ==> u[0] != 'B')
  {
    if k < 3 {
      assert k == 0 || k == 1 || k == 2;
    } else if k < 6 {
      assert k == 3 || k == 4 || k == 5;
    } else {
      assert k == 6 || k == 7 || k == 8 || k == 9 || k == 10;
    }
  }

  /** No unit ends with another unit that is tried before it. */
  lemma NoEarlierEnding(i: nat, k: nat, q: nat)
    requires i < NO_UNIT && i <= k <= NO_UNIT && 0 < q <= |Unit(k)|
    ensures Unit(k)[q..] != Unit(i)
  {
    UnitShape(i);
    UnitShape(k);
    var u := Unit(k);
    assert |u[q..]| == |u| - q && (q < |u| ==> u[q..][0] == u[q]);
  }

  lemma UnitsDiffer(i: nat, k: nat)
    requires i < k <= NO_UNIT
    ensures Unit(i) != Unit(k)
  {
    assert UNITS[0].0[0] == 'G' && UNITS[1].0[0] == 'G' && UNITS[2].0[0] == 'G';
    assert UNITS[3].0[0] == 'M' && UNITS[4].0[0] == 'M' && UNITS[5].0[0] == 'M';
    assert UNITS[6].0[0] == 'K' && UNITS[7].0[0] == 'K' && UNITS[8].0[0] == 'K';
    assert UNITS[9].0[0] == 'B' && |UNITS[10].0| == 0;
    assert forall j :: 0 <= j < 9 ==> |UNITS[j].0| == 3 - j % 3;
  }

  /** In digits followed by a unit, whatever unit occurs begins after the digits. */
  lemma OccursAfterDigits(text: string, digits: string, rest: string, i: nat, p: nat)
    requires text == digits + rest && AllDigits(digits) && i < NO_UNIT && OccursAt(text, Unit(i), p)
    ensures p >= |digits|
  {
    UnitShape(i);
    assert text[p] == text[p..p + |Unit(i)|][0] == Unit(i)[0];
  }

  /** The unit that the text ends with is found right after the digits, exactly. */
  lemma FoundExactly(text: string, digits: string, k: nat)
    requires k < NO_UNIT && text == digits + Unit(k) && AllDigits(digits)
    ensures Find(text, Unit(k)) == Some(|digits|) && text[|digits|..] == Unit(k)
  {
    EndsWith(text, digits, Unit(k));
    forall p: nat | OccursAt(text, Unit(k), p) ensures p >= |digits| {
      OccursAfterDigits(text, digits, Unit(k), k, p);
    }
    FirstFound(text, Unit(k), |digits|);
  }

  lemma EndsWith(text: string, start: string, end: string)
    requires text == start + end
    ensures OccursAt(text, end, |start|) && text[|start|..] == end
  {
  }

  lemma FirstFound(text: string, sub: string, p: nat)
    requires OccursAt(text, sub, p) && forall q: nat :: OccursAt(text, sub, q) ==> q >= p
    ensures Find(text, sub) == Some(p)
  {
    var r := Find(text, sub);
    assert r.Some? ==> OccursAt(text, sub, r.value);
  }

  /** When a unit matches exactly and none before it did, it is the text's only reading. */
  lemma OnlyReading(text: string, i: nat, p: nat, digits: string, k: nat)
    requires i < NO_UNIT && i <= k && Reads(text, digits, k) && p <= |text| && text[p..] == Unit(i)
    ensures k == i && digits == text[..p]
  {
    assert OccursAt(text, Unit(i), p);
    OccursAfterDigits(text, digits, Unit(k), i, p);
    var q := p - |digits|;
    assert text[p..] == Unit(k)[q..];
    if q > 0 {
      NoEarlierEnding(i, k, q);
    } else {
      assert Unit(k)[0..] == Unit(k);
      if i < k {
        UnitsDiffer(i, k);
      }
    }
  }

  /** The digits, of which there is at least one, followed by the suffix. */
  predicate Written(text: string, digits: string, suffix: string) {
    && digits != "" && (forall i :: 0 <= i < |digits| ==> '0' <= digits[i] <= '9')
    && text == digits + suffix
  }

  /** The parser's result in terms of the table of units. */
  ghost predicate TableResult(text: string, r: Size) {
    && (r.Invalid? <==> !Readable(text))
    && forall digits: string, k: nat :: Reads(text, digits, k) ==> r == Product(Number(digits), UNITS[k].1)
  }

  lemma UsesUnit(text: string, r: Size, digits: string, k: nat)
    requires TableResult(text, r) && k <= NO_UNIT && Written(text, digits, Unit(k))
    ensures AllDigits(digits) && r == Product(Number(digits), UNITS[k].1) && !r.Invalid?
  {
    assert Reads(text, digits, k);
  }

  const SUFFIXES := ["GiB", "GB", "G", "MiB", "MB", "M", "KiB", "KB", "K", "B", ""]

  /** A number with the suffix is that number times the factor. */
  ghost predicate Scales(text: string, suffix: string, factor: nat, r: Size) {
    forall digits :: Written(text, digits, suffix) ==> AllDigits(digits) && r == Product(Number(digits), factor)
  }

  /** Only a number with one of the suffixes is a size. */
  ghost predicate RefusesOthers(text: string, r: Size) {
    r.Invalid? <==> forall digits, suffix :: Written(text, digits, suffix) ==> suffix !in SUFFIXES
  }

  /** What a size means: a text that is a number followed by at most one of the suffixes gives the
      number times the unit, a power of 1024 for the suffixes with an "i" and a power of 1000 for the
      others; every other text is refused. */
  ghost predicate Means(text: string, r: Size) {
    && RefusesOthers(text, r)
    && Scales(text, "", 1, r) && Scales(text, "B", 1, r)
    && Scales(text, "K", 1000, r) && Scales(text, "KB", 1000, r)
    && Scales(text, "M", 1000 * 1000, r) && Scales(text, "MB", 1000 * 1000, r)
    && Scales(text, "G", 1000 * 1000 * 1000, r) && Scales(text, "GB", 1000 * 1000 * 1000, r)
    && Scales(text, "KiB", 1024, r) && Scales(text, "MiB", 1024 * 1024, r) && Scales(text, "GiB", 1024 * 1024 * 1024, r)
  }

  lemma NotWritten(text: string, r: Size)
    requires TableResult(text, r) && r.Invalid?
    ensures forall digits, suffix :: Written(text, digits, suffix) ==> suffix !in SUFFIXES
  {
    forall digits, suffix | Written(text, digits, suffix) ensures suffix !in SUFFIXES {
      if suffix in SUFFIXES {
        var k := UnitOf(suffix);
        UsesUnit(text, r, digits, k);
        assert false;
      }
    }
  }

  lemma UnitOf(suffix: string) returns (k: nat)
    requires suffix in SUFFIXES
    ensures k <= NO_UNIT && Unit(k) == suffix
  {
    var i :| 0 <= i < |SUFFIXES| && SUFFIXES[i] == suffix;
    k := i;
    SameSuffix(k);
  }

  lemma SameSuffix(k: nat)
    requires k <= NO_UNIT
    ensures Unit(k) == SUFFIXES[k]
  {
    if k < 5 {
      assert k == 0 || k == 1 || k == 2 || k == 3 || k == 4;
    } else {
      assert k == 5 || k == 6 || k == 7 || k == 8 || k == 9 || k == 10;
    }
  }

  /** Parse a size. */
  method ParseSize(str: string) returns (r: Size)
    ensures Means(Strip(str), r)
  {
    r := ParseReading(str);
    TableMeans(Strip(str), r);
  }

  lemma ScalesBy(text: string, r: Size, k: nat)
    requires TableResult(text, r) && k <= NO_UNIT
    ensures Scales(text, Unit(k), UNITS[k].1, r)
  {
    forall digits | Written(text, digits, Unit(k))
      ensures AllDigits(digits) && r == Product(Number(digits), UNITS[k].1)
    {
      UsesUnit(text, r, digits, k);
    }
  }

  lemma TableRefuses(text: string, r: Size)
    requires TableResult(text, r)
    ensures RefusesOthers(text, r)
  {
    if r.Invalid? {
      NotWritten(text, r);
    } else {
      var digits, k: nat :| Reads(text, digits, k);
      SameSuffix(k);
      assert Written(text, digits, SUFFIXES[k]) && SUFFIXES[k] in SUFFIXES;
    }
  }

  lemma TableMeans(text: string, r: Size)
    requires TableResult(text, r)
    ensures Means(text, r)
  {
    TableRefuses(text, r);
    ScalesBy(text, r, 0);
    ScalesBy(text, r, 1);
    ScalesBy(text, r, 2);
    ScalesBy(text, r, 3);
    ScalesBy(text, r, 4);
    ScalesBy(text, r, 5);
    ScalesBy(text, r, 6);
    ScalesBy(text, r, 7);
    ScalesBy(text, r, 8);
    ScalesBy(text, r, 9);
    ScalesBy(text, r, 10);
  }

  /** The loop over the table: a unit counts if the text ends with it exactly. */
  method ParseReading(str: string) returns (r: Size)
    ensures TableResult(Strip(str), r)
  {
    var scopy := Strip(str);
    var pos: Option<nat> := None;
    var unit: nat := NO_UNIT;
    var i := 0;
    while i < NO_UNIT
      invariant i <= NO_UNIT
      invariant forall digits: string, k: nat :: Reads(scopy, digits, k) ==> k >= i
      invariant pos.None? && unit == NO_UNIT
    {
      pos := Find(scopy, Unit(i));
      forall digits: string | Reads(scopy, digits, i) ensures pos.Some? && Unit(i) == scopy[pos.value..] {
        FoundExactly(scopy, digits, i);
      }
      if pos.Some? {
        if Unit(i) == scopy[pos.value..] {
          unit := i;
          break;
        }
        pos := None;
      }
      i := i + 1;
    }
    var numberStr := if pos.Some? then scopy[..pos.value] else scopy;
    assert scopy == numberStr + Unit(unit);
    forall digits: string, k: nat | Reads(scopy, digits, k) ensures k == unit && digits == numberStr {
      if pos.Some? {
        OnlyReading(scopy, i, pos.value, digits, k);
      }
    }
    if numberStr == "" || !AllDigits(numberStr) {
      return Invalid;
    }
    r := Product(Number(numberStr), UNITS[unit].1);
    assert Reads(scopy, numberStr, unit);
  }

  // ---- decimal text ----

  function Digit(d: nat): char
    requires d < 10
  {
    ('0' as int + d) as char
  }

  function Decimal(n: nat): (s: string)
    ensures s != ""
  {
    if n < 10 then [Digit(n)] else Decimal(n / 10) + [Digit(n % 10)]
  }

  lemma {:induction false} NumberOfDecimal(n: nat)
    ensures AllDigits(Decimal(n)) && Number(Decimal(n)) == n
  {
    if n >= 10 {
      NumberOfDecimal(n / 10);
      assert Decimal(n)[..|Decimal(n)| - 1] == Decimal(n / 10);
    } else {
      assert Decimal(n)[..0] == "";
    }
  }

  lemma {:induction false} StripConcat(a: string, b: string)
    ensures Strip(a + b) == Strip(a) + Strip(b)
  {
    if a == "" {
      assert a + b == b;
    } else {
      assert (a + b)[1..] == a[1..] + b;
      StripConcat(a[1..], b);
    }
  }

  lemma {:induction false} StripSpaces(w: string)
    requires forall i :: 0 <= i < |w| ==> IsSpace(w[i])
    ensures Strip(w) == ""
  {
    if w != "" {
      StripSpaces(w[1..]);
    }
  }

  /** Blanks, tabs, line ends and the like may be inserted anywhere. */
  lemma InsertSpaces(a: string, w: string, b: string)
    requires forall i :: 0 <= i < |w| ==> w[i] == ' ' || '\t' <= w[i] <= '\r'
    ensures Strip(a + w + b) == Strip(a + b)
  {
    StripConcat(a + w, b);
    StripConcat(a, w);
    StripConcat(a, b);
    StripSpaces(w);
  }

  /** Nothing else is removed. */
  lemma {:induction false} StripKeeps(s: string)
    requires forall i :: 0 <= i < |s| ==> s[i] != ' ' && !('\t' <= s[i] <= '\r')
    ensures Strip(s) == s
  {
    if s != "" {
      StripKeeps(s[1..]);
    }
  }

  lemma DigitsInOrder()
    ensures Number("12") == 12
  {
    assert "12"[..1] == "1" && "1"[..0] == "";
    assert Number("1") == 1;
  }

  lemma PrintedMeans(text: string, n: nat, suffix: string, r: Size)
    requires Means(text, r) && text == Decimal(n) + suffix && suffix in SUFFIXES
    ensures suffix == "" || suffix == "B" ==> r == Product(n, 1)
    ensures suffix == "K" || suffix == "KB" ==> r == Product(n, 1000)
    ensures suffix == "M" || suffix == "MB" ==> r == Product(n, 1000 * 1000)
    ensures suffix == "G" || suffix == "GB" ==> r == Product(n, 1000 * 1000 * 1000)
    ensures suffix == "KiB" ==> r == Product(n, 1024)
    ensures suffix == "MiB" ==> r == Product(n, 1024 * 1024)
    ensures suffix == "GiB" ==> r == Product(n, 1024 * 1024 * 1024)
  {
    NumberOfDecimal(n);
    assert Written(text, Decimal(n), suffix);
  }

  /** Every number with every suffix, written with any white space, parses to the product of the number
      and the unit; `ProductExact` says when that is exact. */
  method ParsePrinted(n: nat, suffix: string, str: string) returns (r: Size)
    requires suffix in SUFFIXES && Strip(str) == Decimal(n) + suffix
    ensures suffix == "" || suffix == "B" ==> r == Product(n, 1)
    ensures suffix == "K" || suffix == "KB" ==> r == Product(n, 1000)
    ensures suffix == "M" || suffix == "MB" ==> r == Product(n, 1000 * 1000)
    ensures suffix == "G" || suffix == "GB" ==> r == Product(n, 1000 * 1000 * 1000)
    ensures suffix == "KiB" ==> r == Product(n, 1024)
    ensures suffix == "MiB" ==> r == Product(n, 1024 * 1024)
    ensures suffix == "GiB" ==> r == Product(n, 1024 * 1024 * 1024)
    ensures suffix == "" && n < 0x20_0000_0000_0000 ==> r == Bytes(n)
  {
    r := ParseSize(str);
    PrintedMeans(Strip(str), n, suffix, r);
    if suffix == "" && n < 0x20_0000_0000_0000 {
      ProductExact(n, 1);
    }
  }
}
