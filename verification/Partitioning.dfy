/** Month partitions (backend/data/database/partitioning.py): routing, bounds and names. */
module Partitioning {
  import opened Wrappers

  /** A UTC instant, by its calendar fields. */
  datatype DateTime = DateTime(year: nat, month: nat, day: nat, hour: nat, minute: nat, second: nat, microsecond: nat)

  datatype PartitionKey = PartitionKey(tenant: string, year: nat, month: nat)

  /** Field ranges of Python's `datetime`; days of a month are only bounded by 31. */
  predicate ValidDateTime(d: DateTime) {
    && 1 <= d.year <= 9999 && 1 <= d.month <= 12 && 1 <= d.day <= 31
    && d.hour < 24 && d.minute < 60 && d.second < 60 && d.microsecond < 1_000_000
  }

  function Fields(d: DateTime): seq<nat> {
    [d.year, d.month, d.day, d.hour, d.minute, d.second, d.microsecond]
  }

  /** Chronological order of instants. */
  predicate Earlier(x: seq<nat>, y: seq<nat>) {
    x != [] && y != [] && (x[0] < y[0] || (x[0] == y[0] && Earlier(x[1..], y[1..])))
  }

  function Route(tenant: string, d: DateTime): PartitionKey {
    PartitionKey(tenant, d.year, d.month)
  }

  // ----- Decimal text -----

  function Digit(n: nat): char
    requires n < 10
  {
    '0' + n as char
  }

  function Digits(n: nat): (s: string)
    ensures s != []
  {
    if n < 10 then [Digit(n)] else Digits(n / 10) + [Digit(n % 10)]
  }

  function Zeros(n: nat): (s: string)
    ensures |s| == n
  {
    seq(n, i => '0')
  }

  /** Python's `{n:0widthd}`: at least `width` digits, padded with zeros. */
  function Padded(n: nat, width: nat): string {
    if |Digits(n)| >= width then Digits(n) else Zeros(width - |Digits(n)|) + Digits(n)
  }

  function Underscored(tenant: string): (s: string)
    ensures |s| == |tenant|
  {
    seq(|tenant|, i requires 0 <= i < |tenant| => if tenant[i] == '-' then '_' else tenant[i])
  }

  function SafeTenant(tenant: string): string {
    if tenant == "" then "default" else Underscored(tenant)
  }

  function Suffix(k: PartitionKey): string {
    SafeTenant(k.tenant) + "_" + Padded(k.year, 4) + "_" + Padded(k.month, 2)
  }

  datatype NameError = NotPartitioned

  function ChildTableName(table: string, k: PartitionKey): Result<string, NameError> {
    if table != "transactions" && table != "postings" then Err(NotPartitioned)
    else Ok(table + "_p_" + Suffix(k))
  }

  const MONTH_START := "-01T00:00:00+00:00"

  function Bound(year: nat, month: nat): string {
    Padded(year, 4) + "-" + Padded(month, 2) + MONTH_START
  }

  function NextMonth(k: PartitionKey): (nat, nat) {
    if k.month == 12 then (k.year + 1, 1) else (k.year, k.month + 1)
  }

  /** The half-open bounds, as RFC 3339 text. */
  function MonthBounds(k: PartitionKey): (string, string) {
    (Bound(k.year, k.month), Bound(NextMonth(k).0, NextMonth(k).1))
  }

  // ----- What a bound denotes -----

  function ValueOf(s: string): Option<nat> {
    if s == [] then Some(0)
    else
      match ValueOf(s[..|s| - 1])
      case None => None
      case Some(n) =>
        var c := s[|s| - 1];
        if '0' <= c <= '9' then Some(10 * n + (c - '0') as nat) else None
  }

  /** What follows the year in `<year>-MM-DDTHH:MM:SS+00:00`, as month, day, hour, minute and second. */
  function ParseTail(s: string): Option<seq<nat>>
    requires |s| == 21
  {
    if s[0] != '-' || s[3] != '-' || s[6] != 'T' || s[9] != ':' || s[12] != ':' || s[15..] != "+00:00" then None
    else
      match (ValueOf(s[1..3]), ValueOf(s[4..6]), ValueOf(s[7..9]), ValueOf(s[10..12]), ValueOf(s[13..15]))
      case (Some(month), Some(day), Some(hour), Some(minute), Some(second)) => Some([month, day, hour, minute, second])
      case _ => None
  }

  /** Reads RFC 3339 text in UTC as an instant. */
  function ParseBound(s: string): Option<seq<nat>> {
    if |s| < 21 then None
    else
      match (ValueOf(s[..|s| - 21]), ParseTail(s[|s| - 21..]))
      case (Some(year), Some(fields)) => Some([year] + fields + [0])
      case _ => None
  }

  lemma {:induction false} DigitsReadBack(n: nat)
    ensures ValueOf(Digits(n)) == Some(n)
  {
    if n < 10 {
      assert Digits(n)[..0] == [];
    } else {
      DigitsReadBack(n / 10);
      assert Digits(n)[..|Digits(n)| - 1] == Digits(n / 10);
    }
  }

  lemma {:induction false} LeadingZerosDoNotMatter(k: nat, s: string)
    requires ValueOf(s).Some?
    ensures ValueOf(Zeros(k) + s) == ValueOf(s)
    decreases |s|, k
  {
    if s == [] {
      assert Zeros(k) + s == Zeros(k);
      if k > 0 {
        LeadingZerosDoNotMatter(k - 1, s);
        assert Zeros(k - 1) + s == Zeros(k - 1);
        assert Zeros(k)[..k - 1] == Zeros(k - 1);
      }
    } else {
      var front := s[..|s| - 1];
      LeadingZerosDoNotMatter(k, front);
      assert (Zeros(k) + s)[..|Zeros(k) + s| - 1] == Zeros(k) + front;
    }
  }

  lemma PaddedReadsBack(n: nat, width: nat)
    ensures ValueOf(Padded(n, width)) == Some(n)
  {
    DigitsReadBack(n);
    if |Digits(n)| < width {
      LeadingZerosDoNotMatter(width - |Digits(n)|, Digits(n));
    }
  }

  lemma MonthHasTwoDigits(month: nat)
    requires month < 100
    ensures |Padded(month, 2)| == 2
  {
    if month >= 10 {
      assert Digits(month / 10) == [Digit(month / 10)];
    }
  }

  lemma BoundReadsBack(year: nat, month: nat)
    requires month < 100
    ensures ParseBound(Bound(year, month)) == Some([year, month, 1, 0, 0, 0, 0])
  {
    MonthHasTwoDigits(month);
    PaddedReadsBack(year, 4);
    PaddedReadsBack(month, 2);
    var tail := "-" + Padded(month, 2) + MONTH_START;
    MonthStartReadsBack(tail, Padded(month, 2), month);
    assert Bound(year, month) == Padded(year, 4) + tail;
    BoundParses(Bound(year, month), Padded(year, 4), tail, year, month);
  }

  /** The two digits at `at` in `s`. */
  predicate DigitsAt(s: string, at: nat, n: nat) {
    at + 2 <= |s| && '0' <= s[at] <= '9' && '0' <= s[at + 1] <= '9' && n == 10 * (s[at] - '0') as nat + (s[at + 1] - '0') as nat
  }

  lemma DigitsAtRead(s: string, at: nat, n: nat)
    requires DigitsAt(s, at, n)
    ensures ValueOf(s[at..at + 2]) == Some(n)
  {
    assert s[at..at + 2] == [s[at], s[at + 1]];
    TwoDigitsRead(s[at], s[at + 1]);
  }

  lemma MonthStartText(s: string, m: string)
    requires s == "-" + m + MONTH_START && |m| == 2
    ensures |s| == 21 && s[1..3] == m && s[15..] == "+00:00"
    ensures s[0] == '-' && s[3] == '-' && s[6] == 'T' && s[9] == ':' && s[12] == ':'
    ensures DigitsAt(s, 4, 1) && DigitsAt(s, 7, 0) && DigitsAt(s, 10, 0) && DigitsAt(s, 13, 0)
  {
    assert s[3..] == MONTH_START;
  }

  /** The text of a month's first instant, behind its month. */
  lemma MonthStartReadsBack(s: string, m: string, month: nat)
    requires s == "-" + m + MONTH_START && |m| == 2 && ValueOf(m) == Some(month)
    ensures |s| == 21 && ParseTail(s) == Some([month, 1, 0, 0, 0])
  {
    MonthStartText(s, m);
    DigitsAtRead(s, 4, 1);
    DigitsAtRead(s, 7, 0);
    DigitsAtRead(s, 10, 0);
    DigitsAtRead(s, 13, 0);
  }

  lemma BoundParses(s: string, y: string, tail: string, year: nat, month: nat)
    requires s == y + tail && |tail| == 21 && ValueOf(y) == Some(year) && ParseTail(tail) == Some([month, 1, 0, 0, 0])
    ensures ParseBound(s) == Some([year, month, 1, 0, 0, 0, 0])
  {
    assert s[..|s| - 21] == y && s[|s| - 21..] == tail;
    assert [year] + [month, 1, 0, 0, 0] + [0] == [year, month, 1, 0, 0, 0, 0];
  }

  lemma TwoDigitsRead(x: char, y: char)
    requires '0' <= x <= '9' && '0' <= y <= '9'
    ensures ValueOf([x, y]) == Some(10 * (x - '0') as nat + (y - '0') as nat)
  {
    assert [x, y][..1] == [x];
    assert [x][..0] == [];
    assert ValueOf([x]) == Some((x - '0') as nat);
  }

  // ----- Partitions tile time -----

  /** `d` lies in the range that the partition's bounds denote. */
  predicate InPartition(d: DateTime, k: PartitionKey) {
    var (start, end) := MonthBounds(k);
    match (ParseBound(start), ParseBound(end))
    case (Some(from), Some(until)) => !Earlier(Fields(d), from) && Earlier(Fields(d), until)
    case _ => false
  }

  lemma MonthOrder(d: DateTime, year: nat, month: nat)
    requires ValidDateTime(d)
    ensures Earlier(Fields(d), [year, month, 1, 0, 0, 0, 0]) <==> d.year < year || (d.year == year && d.month < month)
  {
    var b := [year, month, 1, 0, 0, 0, 0];
    assert Fields(d)[1..] == [d.month, d.day, d.hour, d.minute, d.second, d.microsecond];
    assert b[1..] == [month, 1, 0, 0, 0, 0];
    assert Fields(d)[1..][1..] == [d.day, d.hour, d.minute, d.second, d.microsecond];
    assert b[1..][1..] == [1, 0, 0, 0, 0];
    NotEarlierThanMonthStart(d);
  }

  /** The first instant of a month is at midnight on its first day: nothing in the month precedes it. */
  lemma NotEarlierThanMonthStart(d: DateTime)
    requires ValidDateTime(d)
    ensures !Earlier([d.day, d.hour, d.minute, d.second, d.microsecond], [1, 0, 0, 0, 0])
  {
    var time := [d.hour, d.minute, d.second, d.microsecond];
    assert [d.day, d.hour, d.minute, d.second, d.microsecond][1..] == time;
    assert [1, 0, 0, 0, 0][1..] == [0, 0, 0, 0];
    NothingPrecedesZero(time, [0, 0, 0, 0]);
  }

  lemma {:induction false} NothingPrecedesZero(x: seq<nat>, y: seq<nat>)
    requires forall i | 0 <= i < |y| :: y[i] == 0
    ensures !Earlier(x, y)
  {
    if x == [] || y == [] {
    } else {
      NothingPrecedesZero(x[1..], y[1..]);
    }
  }

  /** An instant lies within a partition's bounds exactly when it is routed there: the month
      partitions of a tenant cover all of time and never overlap. */
  lemma RoutedIffInBounds(tenant: string, d: DateTime, k: PartitionKey)
    requires ValidDateTime(d) && k.tenant == tenant && 1 <= k.month <= 12
    ensures InPartition(d, k) <==> Route(tenant, d) == k
  {
    var (year, month) := NextMonth(k);
    BoundReadsBack(k.year, k.month);
    BoundReadsBack(year, month);
    MonthOrder(d, k.year, k.month);
    MonthOrder(d, year, month);
  }

  /** Each month ends, to the character, where the next begins; years included. */
  lemma MonthsAbut(k: PartitionKey)
    requires 1 <= k.month <= 12
    ensures MonthBounds(k).1 == MonthBounds(PartitionKey(k.tenant, NextMonth(k).0, NextMonth(k).1)).0
    ensures forall d: DateTime | ValidDateTime(d) ::
      !(InPartition(d, k) && InPartition(d, PartitionKey(k.tenant, NextMonth(k).0, NextMonth(k).1)))
  {
    var next := PartitionKey(k.tenant, NextMonth(k).0, NextMonth(k).1);
    forall d: DateTime | ValidDateTime(d) ensures !(InPartition(d, k) && InPartition(d, next)) {
      RoutedIffInBounds(k.tenant, d, k);
      RoutedIffInBounds(k.tenant, d, next);
    }
  }

  // ----- What a name says -----

  /** Of a tenant's name only hyphens change, and an empty one reads "default". */
  predicate Names(safe: string, tenant: string) {
    if tenant == "" then safe == "default"
    else |safe| == |tenant| && forall i | 0 <= i < |safe| :: safe[i] == (if tenant[i] == '-' then '_' else tenant[i])
  }

  /** Only the two partitioned tables have children. A child's name is its table, its tenant, the year in
      at least four digits and the month in two, and they can be read back. */
  lemma NamesSayTheirParts(table: string, k: PartitionKey)
    requires k.month < 100
    ensures ChildTableName(table, k).Ok? <==> table == "transactions" || table == "postings"
    ensures Names(SafeTenant(k.tenant), k.tenant)
    ensures var year, month := Padded(k.year, 4), Padded(k.month, 2);
      && ValueOf(year) == Some(k.year) && |year| >= 4 && ValueOf(month) == Some(k.month) && |month| == 2
      && (ChildTableName(table, k).Ok? ==>
            ChildTableName(table, k).value == table + "_p_" + SafeTenant(k.tenant) + "_" + year + "_" + month)
  {
    PaddedReadsBack(k.year, 4);
    PaddedReadsBack(k.month, 2);
    MonthHasTwoDigits(k.month);
    if ChildTableName(table, k).Ok? {
      assert ChildTableName(table, k).value == table + "_p_" + SafeTenant(k.tenant) + "_" + Padded(k.year, 4) + "_" + Padded(k.month, 2);
    }
  }

  // ----- Names sort chronologically -----

  predicate LexLess(s: string, t: string) {
    t != [] && (s == [] || s[0] < t[0] || (s[0] == t[0] && LexLess(s[1..], t[1..])))
  }

  lemma {:induction false} LexPrefix(p: string, s: string, t: string)
    ensures LexLess(p + s, p + t) <==> LexLess(s, t)
  {
    if p == [] {
      assert p + s == s && p + t == t;
    } else {
      LexPrefix(p[1..], s, t);
      assert (p + s)[1..] == p[1..] + s && (p + t)[1..] == p[1..] + t;
    }
  }

  lemma {:induction false} LexConcat(x: string, y: string, s: string, t: string)
    requires |x| == |y|
    ensures LexLess(x + s, y + t) <==> LexLess(x, y) || (x == y && LexLess(s, t))
  {
    if x == [] {
      assert x + s == s && y + t == t;
    } else {
      LexConcat(x[1..], y[1..], s, t);
      assert (x + s)[1..] == x[1..] + s && (y + t)[1..] == y[1..] + t;
      assert x == [x[0]] + x[1..] && y == [y[0]] + y[1..];
    }
  }

  function Pow(width: nat): nat {
    if width == 0 then 1 else 10 * Pow(width - 1)
  }

  /** Exactly `width` digits. */
  function Fixed(n: nat, width: nat): (s: string)
    ensures |s| == width
  {
    if width == 0 then "" else Fixed(n / 10, width - 1) + [Digit(n % 10)]
  }

  lemma {:induction false} FixedOrders(a: nat, b: nat, width: nat)
    requires a < Pow(width) && b < Pow(width)
    ensures LexLess(Fixed(a, width), Fixed(b, width)) <==> a < b
    ensures Fixed(a, width) == Fixed(b, width) <==> a == b
  {
    if width == 0 {
    } else {
      FixedOrders(a / 10, b / 10, width - 1);
      var x, y := Fixed(a / 10, width - 1), Fixed(b / 10, width - 1);
      var s, t := [Digit(a % 10)], [Digit(b % 10)];
      LexConcat(x, y, s, t);
      assert s[1..] == [] && t[1..] == [];
      assert (x + s)[..width - 1] == x && (y + t)[..width - 1] == y;
      assert (x + s)[width - 1] == Digit(a % 10) && (y + t)[width - 1] == Digit(b % 10);
    }
  }

  lemma {:induction false} FixedOfSmall(n: nat, width: nat)
    requires n < Pow(width) && width > 0
    ensures |Digits(n)| <= width && Fixed(n, width) == Zeros(width - |Digits(n)|) + Digits(n)
  {
    if width == 1 {
      assert Pow(0) == 1;
      assert Fixed(n / 10, 0) == "";
    } else if n < 10 {
      assert Pow(width - 1) >= 1;
      FixedOfSmall(0, width - 1);
      assert Fixed(0, width - 1) == Zeros(width - 2) + ['0'];
      assert Zeros(width - 1) == Zeros(width - 2) + ['0'];
    } else {
      FixedOfSmall(n / 10, width - 1);
    }
  }

  lemma PaddedIsFixed(n: nat, width: nat)
    requires n < Pow(width) && width > 0
    ensures Padded(n, width) == Fixed(n, width)
  {
    FixedOfSmall(n, width);
    if |Digits(n)| == width { assert Zeros(0) + Digits(n) == Digits(n); }
  }

  lemma PaddedOrders(a: nat, b: nat, width: nat)
    requires a < Pow(width) && b < Pow(width) && width > 0
    ensures |Padded(a, width)| == |Padded(b, width)| == width
    ensures LexLess(Padded(a, width), Padded(b, width)) <==> a < b
    ensures Padded(a, width) == Padded(b, width) <==> a == b
  {
    PaddedIsFixed(a, width);
    PaddedIsFixed(b, width);
    FixedOrders(a, b, width);
  }

  predicate KeyBefore(k: PartitionKey, m: PartitionKey) {
    k.year < m.year || (k.year == m.year && k.month < m.month)
  }

  /** Year, a separator, month, and whatever follows: text order is date order. */
  lemma DatedTextOrders(k: PartitionKey, m: PartitionKey, separator: string, rest: string)
    requires k.year <= 9999 && m.year <= 9999 && k.month < 100 && m.month < 100
    ensures var s, t := Padded(k.year, 4) + separator + Padded(k.month, 2) + rest, Padded(m.year, 4) + separator + Padded(m.month, 2) + rest;
      (LexLess(s, t) <==> KeyBefore(k, m)) && (s == t <==> k.year == m.year && k.month == m.month)
  {
    assert Pow(2) == 100 && Pow(4) == 10_000 by { assert Pow(1) == 10 && Pow(3) == 10 * Pow(2); }
    PaddedOrders(k.year, m.year, 4);
    PaddedOrders(k.month, m.month, 2);
    var ky, my, km, mm := Padded(k.year, 4), Padded(m.year, 4), Padded(k.month, 2), Padded(m.month, 2);
    var s, t := ky + separator + km + rest, my + separator + mm + rest;
    assert s == ky + (separator + (km + rest)) && t == my + (separator + (mm + rest));
    LexConcat(ky, my, separator + (km + rest), separator + (mm + rest));
    LexPrefix(separator, km + rest, mm + rest);
    LexConcat(km, mm, rest, rest);
    LexIrreflexive(rest);
    var n := |separator|;
    assert s[..4] == ky && t[..4] == my;
    assert s[4 + n..6 + n] == km && t[4 + n..6 + n] == mm;
  }

  lemma {:induction false} LexIrreflexive(s: string)
    ensures !LexLess(s, s)
  {
    if s == [] {
    } else {
      LexIrreflexive(s[1..]);
    }
  }

  /** For one tenant and four-digit years, names sort as the months do, and tell them apart. */
  lemma SuffixesSortChronologically(k: PartitionKey, m: PartitionKey)
    requires k.tenant == m.tenant
    requires k.year <= 9999 && m.year <= 9999 && 1 <= k.month <= 12 && 1 <= m.month <= 12
    ensures LexLess(Suffix(k), Suffix(m)) <==> KeyBefore(k, m)
    ensures Suffix(k) == Suffix(m) <==> k == m
  {
    DatedTextOrders(k, m, "_", "");
    var head := SafeTenant(k.tenant) + "_";
    var s, t := Padded(k.year, 4) + "_" + Padded(k.month, 2) + "", Padded(m.year, 4) + "_" + Padded(m.month, 2) + "";
    assert Suffix(k) == head + s && Suffix(m) == head + t;
    LexPrefix(head, s, t);
    assert Suffix(k)[|head|..] == s && Suffix(m)[|head|..] == t;
  }

  /** Within a tenant, no two child tables share a name. */
  lemma ChildNamesAreDistinct(table: string, other: string, k: PartitionKey, m: PartitionKey)
    requires k.tenant == m.tenant && ChildTableName(table, k).Ok? && ChildTableName(other, m).Ok?
    requires k.year <= 9999 && m.year <= 9999 && 1 <= k.month <= 12 && 1 <= m.month <= 12
    ensures ChildTableName(table, k) == ChildTableName(other, m) <==> table == other && k == m
  {
    SuffixesSortChronologically(k, m);
    var x, y := ChildTableName(table, k).value, ChildTableName(other, m).value;
    if x == y {
      assert x[0] == table[0] && y[0] == other[0];
      assert table == other;
      assert x[|table| + 3..] == Suffix(k) && y[|table| + 3..] == Suffix(m);
    }
  }

  /** Bounds compare as text the way the months do (section 5.1 of RFC 3339), except that December
      9999 ends in a five-digit year, whose text sorts before its start. */
  lemma BoundsCompareAsTextIff(k: PartitionKey)
    requires k.year <= 9999 && 1 <= k.month <= 12
    ensures LexLess(MonthBounds(k).0, MonthBounds(k).1) <==> !(k.year == 9999 && k.month == 12)
  {
    var (year, month) := NextMonth(k);
    if year <= 9999 {
      DatedTextOrders(k, PartitionKey(k.tenant, year, month), "-", MONTH_START);
    } else {
      assert Digits(9999) == "9999" by { assert Digits(9) == "9" && Digits(99) == "99" && Digits(999) == "999"; }
      assert Digits(10000)[0] == '1' by {
        assert Digits(1) == "1" && Digits(10) == "10" && Digits(100) == "100" && Digits(1000) == "1000";
      }
      assert MonthBounds(k).0[0] == '9' && MonthBounds(k).1[0] == '1';
    }
  }
}
