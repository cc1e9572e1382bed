/** Automatic manifest names, and the choice of the latest manifest by its name. */
module Latest {
  import opened Wrappers
  import opened Bytes

  type Name = seq<u8>

  const UNDERSCORE: u8 := 0x5F
  const LIVE: seq<u8> := [0x6C, 0x69, 0x76, 0x65]

  // ---- Dates ----

  /** A UTC date and time of day. */
  datatype Stamp = Stamp(year: nat, month: nat, day: nat, hour: nat, minute: nat, second: nat)

  predicate IsLeap(year: nat) { year % 4 == 0 && (year % 100 != 0 || year % 400 == 0) }

  function MonthLength(year: nat, month: nat): (n: nat)
    ensures 28 <= n <= 31
  {
    if month == 2 then (if IsLeap(year) then 29 else 28)
    else if month in {4, 6, 9, 11} then 30 else 31
  }

  /** A date that exists, with a year of four digits. */
  predicate Valid(t: Stamp) {
    && t.year <= 9999 && 1 <= t.month <= 12 && 1 <= t.day <= MonthLength(t.year, t.month)
    && t.hour < 24 && t.minute < 60 && t.second < 60
  }

  /** Days of the year before the given month. */
  function DaysBeforeMonth(year: nat, month: nat): nat {
    if month <= 1 then 0 else DaysBeforeMonth(year, month - 1) + MonthLength(year, month - 1)
  }

  function DaysBeforeYear(year: nat): nat {
    if year == 0 then 0 else DaysBeforeYear(year - 1) + DaysBeforeMonth(year - 1, 13)
  }

  function DayNumber(t: Stamp): nat {
    DaysBeforeYear(t.year) + DaysBeforeMonth(t.year, t.month) + t.day
  }

  const EPOCH_DAY := 719_528 + 1

  /** Seconds since the first of January 1970. */
  function Timestamp(t: Stamp): int {
    (DayNumber(t) - EPOCH_DAY) * 86400 + t.hour * 3600 + t.minute * 60 + t.second
  }

  /** Years before a year: 365 days each, and one more for every leap year of the Gregorian calendar. */
  lemma {:induction false} YearsAre(year: nat)
    ensures DaysBeforeYear(year) == 365 * year + (year + 3) / 4 - (year + 99) / 100 + (year + 399) / 400
  {
    hide DaysBeforeMonth;
    hide IsLeap;
    if year > 0 {
      YearsAre(year - 1);
      YearLength(year - 1);
      LeapCount(year - 1);
    }
  }

  lemma LeapCount(year: nat)
    ensures (year + 4) / 4 - (year + 100) / 100 + (year + 400) / 400 ==
            (year + 3) / 4 - (year + 99) / 100 + (year + 399) / 400 + if IsLeap(year) then 1 else 0
  {
    EveryFour(year);
    EveryHundred(year);
    EveryFourHundred(year);
    HundredsAreFours(year);
  }

  lemma EveryFour(year: nat)
    ensures (year + 4) / 4 == (year + 3) / 4 + if year % 4 == 0 then 1 else 0
  {
  }

  lemma EveryHundred(year: nat)
    ensures (year + 100) / 100 == (year + 99) / 100 + if year % 100 == 0 then 1 else 0
  {
  }

  lemma HundredsAreFours(year: nat)
    ensures year % 100 == 0 ==> year % 4 == 0
  {
    if year % 100 == 0 {
      var centuries := year / 100;
      assert year == 100 * centuries;
      MultipleOfFour(25 * centuries);
    }
  }

  lemma MultipleOfFour(n: nat)
    ensures 4 * n % 4 == 0
  {
  }

  lemma EveryFourHundred(year: nat)
    ensures (year + 400) / 400 == (year + 399) / 400 + if year % 400 == 0 then 1 else 0
    ensures year % 400 == 0 ==> year % 100 == 0
  {
  }

  lemma YearLength(year: nat)
    ensures DaysBeforeMonth(year, 13) == if IsLeap(year) then 366 else 365
  {
    hide IsLeap;
    MonthDays(year, 1);
    MonthDays(year, 4);
    MonthDays(year, 7);
    MonthDays(year, 10);
  }

  /** Three months on. */
  lemma MonthDays(year: nat, month: nat)
    requires month >= 1
    ensures DaysBeforeMonth(year, 1) == 0
    ensures DaysBeforeMonth(year, month + 3) ==
            DaysBeforeMonth(year, month) + MonthLength(year, month) + MonthLength(year, month + 1)
            + MonthLength(year, month + 2)
  {
    hide MonthLength;
    assert DaysBeforeMonth(year, month + 1) == DaysBeforeMonth(year, month) + MonthLength(year, month);
    assert DaysBeforeMonth(year, month + 2) == DaysBeforeMonth(year, month + 1) + MonthLength(year, month + 1);
  }

  lemma DaysBefore(year: nat)
    requires year == 1970 || year == 2024
    ensures DaysBeforeYear(year) == if year == 1970 then 719_528 else 739_251
  {
    YearsAre(year);
    hide DaysBeforeYear;
  }

  /** Seconds are counted from 1970; a leap day in 2024 starts at second 1709164800. */
  lemma EpochIsZero(hour: nat, minute: nat, second: nat)
    ensures Timestamp(Stamp(1970, 1, 1, hour, minute, second)) == hour * 3600 + minute * 60 + second
    ensures Timestamp(Stamp(2024, 2, 29, 0, 0, 0)) == 1_709_164_800
  {
    hide DaysBeforeYear;
    DaysBefore(1970);
    DaysBefore(2024);
    assert DaysBeforeMonth(2024, 1) == 0 && DaysBeforeMonth(1970, 1) == 0;
    assert DaysBeforeMonth(2024, 2) == 31;
  }

  lemma {:induction false} MonthsGrow(year: nat, a: nat, b: nat)
    requires 1 <= a < b
    ensures DaysBeforeMonth(year, a) + MonthLength(year, a) <= DaysBeforeMonth(year, b)
  {
    if a < b - 1 {
      MonthsGrow(year, a, b - 1);
    }
  }

  lemma {:induction false} YearsGrow(a: nat, b: nat)
    requires a < b
    ensures DaysBeforeYear(a) + DaysBeforeMonth(a, 13) <= DaysBeforeYear(b)
  {
    if a < b - 1 {
      YearsGrow(a, b - 1);
    }
  }

  /** Date and time compared field by field. */
  predicate Before(a: Stamp, b: Stamp) {
    a.year < b.year || (a.year == b.year &&
    (a.month < b.month || (a.month == b.month &&
    (a.day < b.day || (a.day == b.day &&
    (a.hour < b.hour || (a.hour == b.hour &&
    (a.minute < b.minute || (a.minute == b.minute && a.second < b.second)))))))))
  }

  lemma DaysOrdered(a: Stamp, b: Stamp)
    requires Valid(a) && Valid(b)
    requires a.year < b.year || (a.year == b.year && a.month < b.month)
    ensures DayNumber(a) < DayNumber(b)
  {
    hide DaysBeforeMonth;
    hide DaysBeforeYear;
    if a.year < b.year {
      MonthsGrow(a.year, a.month, 13);
      YearsGrow(a.year, b.year);
    } else {
      MonthsGrow(a.year, a.month, b.month);
    }
  }

  /** Field by field is by time. */
  lemma BeforeIsEarlier(a: Stamp, b: Stamp)
    requires Valid(a) && Valid(b)
    ensures Before(a, b) <==> Timestamp(a) < Timestamp(b)
  {
    if a.year < b.year || (a.year == b.year && a.month < b.month) {
      DaysOrdered(a, b);
    } else if b.year < a.year || (b.year == a.year && b.month < a.month) {
      DaysOrdered(b, a);
    }
    hide DaysBeforeMonth;
    hide DaysBeforeYear;
  }

  // ---- Lexicographic order ----

  predicate Less(a: seq<u8>, b: seq<u8>) {
    b != [] && (a == [] || a[0] < b[0] || (a[0] == b[0] && Less(a[1..], b[1..])))
  }

  lemma {:induction false} LessTotal(a: seq<u8>, b: seq<u8>)
    ensures a == b || Less(a, b) || Less(b, a)
    ensures !(Less(a, b) && Less(b, a)) && !Less(a, a)
  {
    if a != [] {
      LessTotal(a[1..], a[1..]);
      if b != [] {
        LessTotal(a[1..], b[1..]);
        if a[0] == b[0] && a[1..] == b[1..] {
          assert a == [a[0]] + a[1..] && b == [b[0]] + b[1..];
        }
      }
    }
  }

  lemma {:induction false} LessTransitive(a: seq<u8>, b: seq<u8>, c: seq<u8>)
    requires Less(a, b) && Less(b, c)
    ensures Less(a, c)
  {
    if a != [] && a[0] == b[0] == c[0] {
      LessTransitive(a[1..], b[1..], c[1..]);
    }
  }

  /** Texts that agree in length up to here are compared here first. */
  lemma {:induction false} LessConcat(a: seq<u8>, b: seq<u8>, x: seq<u8>, y: seq<u8>)
    requires |a| == |b|
    ensures Less(a + x, b + y) <==> Less(a, b) || (a == b && Less(x, y))
  {
    if a == [] {
      assert a + x == x && b + y == y;
    } else {
      LessConcat(a[1..], b[1..], x, y);
      assert (a + x)[1..] == a[1..] + x && (b + y)[1..] == b[1..] + y;
      assert a == [a[0]] + a[1..] && b == [b[0]] + b[1..];
      LessTotal(a, b);
    }
  }

  // ---- Names ----

  /** A number in `n` decimal digits, zero-padded. */
  function Digits(v: nat, n: nat): (s: seq<u8>)
    ensures |s| == n
    decreases n, v
  {
    if n == 0 then [] else Digits(v / 10, n - 1) + [0x30 + v % 10]
  }

  function Pow10(n: nat): nat { if n == 0 then 1 else 10 * Pow10(n - 1) }

  lemma {:induction false} DigitsOrdered(a: nat, b: nat, n: nat)
    requires a < Pow10(n) && b < Pow10(n)
    ensures Less(Digits(a, n), Digits(b, n)) <==> a < b
    ensures Digits(a, n) == Digits(b, n) <==> a == b
    decreases n
  {
    if n > 0 {
      DigitsOrdered(a / 10, b / 10, n - 1);
      var p, q := Digits(a / 10, n - 1), Digits(b / 10, n - 1);
      LessConcat(p, q, [0x30 + a % 10], [0x30 + b % 10]);
      var x, y := Digits(a, n), Digits(b, n);
      assert x[..n - 1] == p && x[n - 1] == 0x30 + a % 10;
      assert y[..n - 1] == q && y[n - 1] == 0x30 + b % 10;
    }
  }

  /** A field of a name: a letter, then digits. */
  function Field(mark: seq<u8>, v: nat, n: nat): seq<u8> { mark + Digits(v, n) }

  const Y: seq<u8> := [0x79]
  const M: seq<u8> := [0x6D]
  const D: seq<u8> := [0x64]
  const H: seq<u8> := [0x5F, 0x68]
  const S: seq<u8> := [0x73]

  lemma FieldOrdered(mark: seq<u8>, a: nat, b: nat, n: nat, x: seq<u8>, y: seq<u8>)
    requires a < Pow10(n) && b < Pow10(n)
    ensures Less(Field(mark, a, n) + x, Field(mark, b, n) + y) <==> a < b || (a == b && Less(x, y))
  {
    DigitsOrdered(a, b, n);
    LessTotal(mark, mark);
    LessConcat(mark, mark, Digits(a, n), Digits(b, n));
    LessConcat(Field(mark, a, n), Field(mark, b, n), x, y);
    assert Field(mark, a, n)[|mark|..] == Digits(a, n) && Field(mark, b, n)[|mark|..] == Digits(b, n);
  }

  /** `AUTO_TIMESTAMP_FMT`, with what follows it. */
  function Format(t: Stamp, rest: seq<u8>): seq<u8> {
    Field(Y, t.year, 4) + (Field(M, t.month, 2) + (Field(D, t.day, 2) +
    (Field(H, t.hour, 2) + (Field(M, t.minute, 2) + (Field(S, t.second, 2) + rest)))))
  }

  lemma Powers()
    ensures Pow10(2) == 100 && Pow10(4) == 10000
  {
    assert Pow10(1) == 10 && Pow10(3) == 1000;
  }

  lemma FormatOrdered(a: Stamp, b: Stamp, x: seq<u8>, y: seq<u8>)
    requires Valid(a) && Valid(b)
    ensures Less(Format(a, x), Format(b, y)) <==> Before(a, b) || (a == b && Less(x, y))
  {
    Powers();
    hide Less;
    hide Field;
    hide Pow10;
    FieldOrdered(S, a.second, b.second, 2, x, y);
    var a5, b5 := Field(S, a.second, 2) + x, Field(S, b.second, 2) + y;
    FieldOrdered(M, a.minute, b.minute, 2, a5, b5);
    var a4, b4 := Field(M, a.minute, 2) + a5, Field(M, b.minute, 2) + b5;
    FieldOrdered(H, a.hour, b.hour, 2, a4, b4);
    var a3, b3 := Field(H, a.hour, 2) + a4, Field(H, b.hour, 2) + b4;
    FieldOrdered(D, a.day, b.day, 2, a3, b3);
    var a2, b2 := Field(D, a.day, 2) + a3, Field(D, b.day, 2) + b3;
    FieldOrdered(M, a.month, b.month, 2, a2, b2);
    var a1, b1 := Field(M, a.month, 2) + a2, Field(M, b.month, 2) + b2;
    FieldOrdered(Y, a.year, b.year, 4, a1, b1);
  }

  function Prefix(shard: seq<u8>, replica: seq<u8>): seq<u8> {
    LIVE + [UNDERSCORE] + shard + [UNDERSCORE] + replica + [UNDERSCORE]
  }

  /** `build_auto_name`; `uuid` is the shortened one. */
  function AutoName(shard: seq<u8>, replica: seq<u8>, t: Stamp, uuid: seq<u8>): Name {
    Prefix(shard, replica) + Format(t, [UNDERSCORE] + uuid)
  }

  /** The number a text of decimal digits stands for. */
  function Decimal(s: seq<u8>): int {
    if s == [] then 0
    else
      var digit: int := s[|s| - 1];
      10 * Decimal(s[..|s| - 1]) + digit - 0x30
  }

  /** `s` is the number in exactly `n` decimal digits. */
  predicate Reads(s: seq<u8>, v: nat, n: nat) {
    |s| == n && (forall c :: c in s ==> 0x30 <= c <= 0x39) && Decimal(s) == v
  }

  lemma {:induction false} DigitsRead(v: nat, n: nat)
    requires v < Pow10(n)
    ensures Reads(Digits(v, n), v, n)
    decreases n
  {
    if n > 0 {
      var front := Digits(v / 10, n - 1);
      DigitsRead(v / 10, n - 1);
      assert (front + [0x30 + v % 10])[..n - 1] == front;
    }
  }

  /**
   * The text of an automatic name: `live_`, the shard and the replica, and `y`, `m`, `d`, `_h`,
   * `m`, `s` with four or two digits each that read as the fields of the timestamp.
   */
  lemma AutoNameReads(shard: seq<u8>, replica: seq<u8>, t: Stamp, uuid: seq<u8>)
      returns (y: seq<u8>, m: seq<u8>, d: seq<u8>, h: seq<u8>, i: seq<u8>, s: seq<u8>)
    requires Valid(t)
    ensures Reads(y, t.year, 4) && Reads(m, t.month, 2) && Reads(d, t.day, 2)
    ensures Reads(h, t.hour, 2) && Reads(i, t.minute, 2) && Reads(s, t.second, 2)
    ensures AutoName(shard, replica, t, uuid) ==
            [0x6C, 0x69, 0x76, 0x65, 0x5F] + shard + [0x5F] + replica
            + [0x5F, 0x79] + y + [0x6D] + m + [0x64] + d + [0x5F, 0x68] + h + [0x6D] + i + [0x73] + s
            + [0x5F] + uuid
  {
    Powers();
    hide Pow10;
    DigitsRead(t.year, 4);
    DigitsRead(t.month, 2);
    DigitsRead(t.day, 2);
    DigitsRead(t.hour, 2);
    DigitsRead(t.minute, 2);
    DigitsRead(t.second, 2);
    y, m, d := Digits(t.year, 4), Digits(t.month, 2), Digits(t.day, 2);
    h, i, s := Digits(t.hour, 2), Digits(t.minute, 2), Digits(t.second, 2);
    hide *;
    AutoNameText(shard, replica, t, uuid);
  }

  lemma AutoNameText(shard: seq<u8>, replica: seq<u8>, t: Stamp, uuid: seq<u8>)
    ensures AutoName(shard, replica, t, uuid) ==
            [0x6C, 0x69, 0x76, 0x65, 0x5F] + shard + [0x5F] + replica
            + [0x5F, 0x79] + Digits(t.year, 4) + [0x6D] + Digits(t.month, 2) + [0x64] + Digits(t.day, 2)
            + [0x5F, 0x68] + Digits(t.hour, 2) + [0x6D] + Digits(t.minute, 2) + [0x73] + Digits(t.second, 2)
            + [0x5F] + uuid
  {
    hide Digits;
  }

  /** Later names come later in the alphabet. */
  lemma NamesOrdered(shard: seq<u8>, replica: seq<u8>, a: Stamp, b: Stamp, u: seq<u8>, v: seq<u8>)
    requires Valid(a) && Valid(b)
    requires Less(AutoName(shard, replica, a, u), AutoName(shard, replica, b, v))
             || AutoName(shard, replica, a, u) == AutoName(shard, replica, b, v)
    ensures Timestamp(a) <= Timestamp(b)
  {
    hide Timestamp;
    hide Less;
    hide Format;
    hide Prefix;
    var p := Prefix(shard, replica);
    var x, y := Format(a, [UNDERSCORE] + u), Format(b, [UNDERSCORE] + v);
    LessTotal(p, p);
    LessConcat(p, p, x, y);
    LessConcat(p, p, y, x);
    LessTotal(p + x, p + y);
    FormatOrdered(a, b, [UNDERSCORE] + u, [UNDERSCORE] + v);
    FormatOrdered(b, a, [UNDERSCORE] + v, [UNDERSCORE] + u);
    BeforeIsEarlier(b, a);
  }

  // ---- Whose names match ----

  function Identity(shard: seq<u8>, replica: seq<u8>): seq<u8> { shard + [UNDERSCORE] + replica }

  predicate Plain(s: seq<u8>) { UNDERSCORE !in s }

  /**
   * When the prefix of an identity `x` matches an automatic name of identity `y`: they are
   * the same text, or `y` goes on behind `x` and an underscore, or `x` goes on behind `y`
   * with the beginning of a timestamp, as no sensible name does.
   */
  predicate Matches(x: seq<u8>, y: seq<u8>, t: Stamp, uuid: seq<u8>) {
    || x == y
    || x + [UNDERSCORE] <= y
    || (y + [UNDERSCORE] <= x && x[|y| + 1..] + [UNDERSCORE] <= Format(t, [UNDERSCORE] + uuid))
  }

  lemma MatchesExactly(shard: seq<u8>, replica: seq<u8>, shard2: seq<u8>, replica2: seq<u8>, t: Stamp, uuid: seq<u8>)
    ensures Prefix(shard, replica) <= AutoName(shard2, replica2, t, uuid)
            <==> Matches(Identity(shard, replica), Identity(shard2, replica2), t, uuid)
  {
    var x, y, f := Identity(shard, replica), Identity(shard2, replica2), Format(t, [UNDERSCORE] + uuid);
    hide Format;
    var live := LIVE + [UNDERSCORE];
    assert Prefix(shard, replica) == live + (x + [UNDERSCORE]);
    assert AutoName(shard2, replica2, t, uuid) == live + (y + [UNDERSCORE] + f);
    hide *;
    PrefixBehind(live, x + [UNDERSCORE], y + [UNDERSCORE] + f);
    if |x| == |y| {
      PrefixSplit(x, y, [UNDERSCORE], [UNDERSCORE] + f);
      assert y + ([UNDERSCORE] + f) == y + [UNDERSCORE] + f;
    } else if |x| < |y| {
      PrefixShort(x + [UNDERSCORE], y, [UNDERSCORE] + f);
      assert y + ([UNDERSCORE] + f) == y + [UNDERSCORE] + f;
    } else {
      var front, back := x[..|y| + 1], x[|y| + 1..];
      assert x + [UNDERSCORE] == front + (back + [UNDERSCORE]);
      PrefixSplit(front, y + [UNDERSCORE], back + [UNDERSCORE], f);
    }
  }

  lemma PrefixBehind<T>(a: seq<T>, x: seq<T>, y: seq<T>)
    ensures a + x <= a + y <==> x <= y
  {
    PrefixSplit(a, a, x, y);
  }

  lemma PrefixSplit<T>(a: seq<T>, b: seq<T>, x: seq<T>, y: seq<T>)
    requires |a| == |b|
    ensures a + x <= b + y <==> a == b && x <= y
  {
    var s, t := a + x, b + y;
    if s <= t {
      assert s[..|a|] == a && t[..|a|] == b;
      assert s[|a|..] == x && t[|a|..] == y;
      assert t[..|s|] == s;
      assert y[..|x|] == t[|a|..|s|] == s[|a|..] == x;
    }
  }

  lemma PrefixShort<T>(a: seq<T>, b: seq<T>, y: seq<T>)
    requires |a| <= |b|
    ensures a <= b + y <==> a <= b
  {
    assert (b + y)[..|a|] == b[..|a|];
  }

  /** Without underscores in shards and replicas, exactly the replica's own names match. */
  lemma PlainMatchesOwn(shard: seq<u8>, replica: seq<u8>, shard2: seq<u8>, replica2: seq<u8>, t: Stamp, uuid: seq<u8>)
    requires Plain(shard) && Plain(replica) && Plain(shard2) && Plain(replica2)
    ensures Prefix(shard, replica) <= AutoName(shard2, replica2, t, uuid)
            <==> shard == shard2 && replica == replica2
  {
    MatchesExactly(shard, replica, shard2, replica2, t, uuid);
    hide Format;
    var x, y := Identity(shard, replica), Identity(shard2, replica2);
    OneUnderscore(shard, replica);
    OneUnderscore(shard2, replica2);
    if x == y {
      assert x[|shard|] == UNDERSCORE && y[|shard2|] == UNDERSCORE;
      assert x[..|shard|] == shard && y[..|shard2|] == shard2;
      assert x[|shard| + 1..] == replica && y[|shard2| + 1..] == replica2;
    }
    NoneGoesOn(shard, replica, shard2, replica2);
    NoneGoesOn(shard2, replica2, shard, replica);
  }

  lemma NoneGoesOn(shard: seq<u8>, replica: seq<u8>, shard2: seq<u8>, replica2: seq<u8>)
    requires Plain(shard) && Plain(replica) && Plain(shard2) && Plain(replica2)
    ensures !(Identity(shard, replica) + [UNDERSCORE] <= Identity(shard2, replica2))
  {
    var x, y := Identity(shard, replica), Identity(shard2, replica2);
    OneUnderscore(shard, replica);
    OneUnderscore(shard2, replica2);
    if x + [UNDERSCORE] <= y {
      GoesOn(x, y, |shard|);
    }
  }

  lemma GoesOn(x: seq<u8>, y: seq<u8>, i: nat)
    requires x + [UNDERSCORE] <= y && i < |x|
    ensures |x| < |y| && y[|x|] == UNDERSCORE && y[i] == x[i]
  {
    assert (x + [UNDERSCORE])[|x|] == UNDERSCORE && (x + [UNDERSCORE])[i] == x[i];
  }

  lemma OneUnderscore(shard: seq<u8>, replica: seq<u8>)
    requires Plain(shard) && Plain(replica)
    ensures var x := Identity(shard, replica);
            forall i :: 0 <= i < |x| ==> (x[i] == UNDERSCORE <==> i == |shard|)
  {
  }

  // ---- The choice ----

  /** The greatest of the names with the prefix, if there is one. */
  predicate Chosen(names: seq<Name>, prefix: seq<u8>, latest: Option<Name>) {
    && (latest.None? <==> forall n :: n in names ==> !(prefix <= n))
    && (latest.Some? ==>
          && latest.value in names && prefix <= latest.value
          && forall n :: n in names && prefix <= n ==> n == latest.value || Less(n, latest.value))
  }

  /** The filter and maximum of `load_known_from_latest_manifest`. */
  method LatestName(names: seq<Name>, prefix: seq<u8>) returns (latest: Option<Name>)
    ensures Chosen(names, prefix, latest)
  {
    latest := None;
    for k := 0 to |names|
      invariant latest.None? <==> forall i :: 0 <= i < k ==> !(prefix <= names[i])
      invariant latest.Some? ==> latest.value in names && prefix <= latest.value
      invariant latest.Some? ==>
                  forall i :: 0 <= i < k && prefix <= names[i] ==>
                    names[i] == latest.value || Less(names[i], latest.value)
    {
      if prefix <= names[k] {
        if latest.None? {
          latest := Some(names[k]);
        } else {
          LessTotal(names[k], latest.value);
          if !Less(names[k], latest.value) {
            if latest.value != names[k] {
              forall i | 0 <= i < k && prefix <= names[i]
                ensures names[i] == names[k] || Less(names[i], names[k])
              {
                if names[i] != latest.value {
                  LessTransitive(names[i], latest.value, names[k]);
                }
              }
            }
            latest := Some(names[k]);
          }
        }
      }
    }
  }

  /** A manifest with an automatic name of this shard and replica. */
  ghost predicate Auto(n: Name, shard: seq<u8>, replica: seq<u8>, t: Stamp) {
    Valid(t) && exists uuid :: n == AutoName(shard, replica, t, uuid)
  }

  ghost predicate Own(n: Name, shard: seq<u8>, replica: seq<u8>) {
    exists t :: Auto(n, shard, replica, t)
  }

  /** The listing has no name that matches the prefix but the replica's own automatic ones. */
  ghost predicate Unmixed(names: seq<Name>, shard: seq<u8>, replica: seq<u8>) {
    forall n :: n in names && Prefix(shard, replica) <= n ==> Own(n, shard, replica)
  }

  /** An automatic name of some shard and replica without underscores. */
  ghost predicate FromPlain(n: Name) {
    exists shard, replica :: Plain(shard) && Plain(replica) && Own(n, shard, replica)
  }

  /** So it is when no shard and no replica has an underscore. */
  lemma PlainIsUnmixed(names: seq<Name>, shard: seq<u8>, replica: seq<u8>)
    requires Plain(shard) && Plain(replica) && forall n :: n in names ==> FromPlain(n)
    ensures Unmixed(names, shard, replica)
  {
    forall n | n in names && Prefix(shard, replica) <= n
      ensures Own(n, shard, replica)
    {
      var shard2, replica2 :| Plain(shard2) && Plain(replica2) && Own(n, shard2, replica2);
      var t :| Auto(n, shard2, replica2, t);
      var uuid :| n == AutoName(shard2, replica2, t, uuid);
      hide AutoName;
      hide Prefix;
      PlainMatchesOwn(shard, replica, shard2, replica2, t, uuid);
    }
  }

  lemma OwnMatches(n: Name, shard: seq<u8>, replica: seq<u8>, t: Stamp)
    requires Auto(n, shard, replica, t)
    ensures Prefix(shard, replica) <= n
  {
    hide Prefix;
    hide Format;
  }

  /**
   * In an unmixed listing the name chosen is the replica's own and a latest of its automatic
   * names; none is chosen exactly when it has none.
   */
  lemma LatestByTime(names: seq<Name>, shard: seq<u8>, replica: seq<u8>, latest: Option<Name>)
    requires Chosen(names, Prefix(shard, replica), latest) && Unmixed(names, shard, replica)
    ensures latest.None? <==> forall n :: n in names ==> !Own(n, shard, replica)
    ensures latest.Some? ==>
              exists t :: Auto(latest.value, shard, replica, t)
                          && forall n, s :: n in names && Auto(n, shard, replica, s) ==> Timestamp(s) <= Timestamp(t)
  {
    hide AutoName;
    hide Prefix;
    hide Timestamp;
    hide Less;
    forall n, s | n in names && Auto(n, shard, replica, s)
      ensures Prefix(shard, replica) <= n
    {
      OwnMatches(n, shard, replica, s);
    }
    if latest.Some? {
      var t :| Auto(latest.value, shard, replica, t);
      var u :| latest.value == AutoName(shard, replica, t, u);
      forall n, s | n in names && Auto(n, shard, replica, s)
        ensures Timestamp(s) <= Timestamp(t)
      {
        var v :| n == AutoName(shard, replica, s, v);
        NamesOrdered(shard, replica, s, t, v, u);
      }
    }
  }

  // ---- Mixed listings ----

  /**
   * A replica whose identity goes on behind an underscore with `more` has matching names. Its
   * names beat the replica's own whatever their age when `more` starts behind a `y`, never
   * when it starts before one or is empty, and otherwise as the texts compare.
   */
  lemma OtherReplicaRank(shard: seq<u8>, replica: seq<u8>, shard2: seq<u8>, replica2: seq<u8>, more: seq<u8>,
                         t: Stamp, s: Stamp, u: seq<u8>, v: seq<u8>)
    requires Identity(shard2, replica2) == Identity(shard, replica) + [UNDERSCORE] + more
    ensures var own, other := AutoName(shard, replica, t, u), AutoName(shard2, replica2, s, v);
            && Prefix(shard, replica) <= other
            && (Less(own, other) <==>
                  Less(Format(t, [UNDERSCORE] + u), more + [UNDERSCORE] + Format(s, [UNDERSCORE] + v)))
            && (more != [] && more[0] > Y[0] ==> Less(own, other))
            && (more == [] || more[0] < Y[0] ==> Less(other, own))
  {
    hide Format;
    hide Prefix;
    hide Identity;
    var p := Prefix(shard, replica);
    var x, y := Format(t, [UNDERSCORE] + u), more + [UNDERSCORE] + Format(s, [UNDERSCORE] + v);
    OtherName(shard, replica, shard2, replica2, more, s, v);
    LessTotal(p, p);
    LessConcat(p, p, x, y);
    LessConcat(p, p, y, x);
    FormatStarts(t, [UNDERSCORE] + u);
  }

  lemma OtherName(shard: seq<u8>, replica: seq<u8>, shard2: seq<u8>, replica2: seq<u8>, more: seq<u8>,
                  s: Stamp, v: seq<u8>)
    requires Identity(shard2, replica2) == Identity(shard, replica) + [UNDERSCORE] + more
    ensures AutoName(shard2, replica2, s, v)
            == Prefix(shard, replica) + (more + [UNDERSCORE] + Format(s, [UNDERSCORE] + v))
  {
    hide Format;
    var live := LIVE + [UNDERSCORE];
    assert Prefix(shard, replica) == live + (Identity(shard, replica) + [UNDERSCORE]);
    assert Prefix(shard2, replica2) == live + (Identity(shard2, replica2) + [UNDERSCORE]);
  }

  /** Two replicas of one identity text take turns by time: the later of their names is the greater. */
  lemma SameIdentityByTime(shard: seq<u8>, replica: seq<u8>, shard2: seq<u8>, replica2: seq<u8>,
                           t: Stamp, s: Stamp, u: seq<u8>, v: seq<u8>)
    requires Identity(shard, replica) == Identity(shard2, replica2) && Valid(t) && Valid(s)
    requires Timestamp(t) < Timestamp(s)
    ensures Less(AutoName(shard, replica, t, u), AutoName(shard2, replica2, s, v))
  {
    var p := Prefix(shard, replica);
    assert p == LIVE + [UNDERSCORE] + (Identity(shard, replica) + [UNDERSCORE]);
    assert Prefix(shard2, replica2) == LIVE + [UNDERSCORE] + (Identity(shard2, replica2) + [UNDERSCORE]);
    hide Timestamp;
    hide Format;
    hide Less;
    LessTotal(p, p);
    LessConcat(p, p, Format(t, [UNDERSCORE] + u), Format(s, [UNDERSCORE] + v));
    FormatOrdered(t, s, [UNDERSCORE] + u, [UNDERSCORE] + v);
    BeforeIsEarlier(t, s);
  }

  /** A concrete pair: the replica named with an underscore and a `z` is chosen, whatever the ages. */
  lemma OtherReplicaChosen(shard: seq<u8>, replica: seq<u8>, t: Stamp, s: Stamp, u: seq<u8>, v: seq<u8>)
    requires Valid(t) && Valid(s)
    ensures var own, other := AutoName(shard, replica, t, u), AutoName(shard, replica + [UNDERSCORE, 0x7A], s, v);
            Chosen([own, other], Prefix(shard, replica), Some(other)) && own != other
  {
    var replica2 := replica + [UNDERSCORE, 0x7A];
    assert Identity(shard, replica2) == Identity(shard, replica) + [UNDERSCORE] + [0x7A];
    hide Less;
    hide AutoName;
    hide Prefix;
    OtherReplicaRank(shard, replica, shard, replica2, [0x7A], t, s, u, v);
    LessTotal(AutoName(shard, replica, t, u), AutoName(shard, replica, t, u));
  }

  lemma FormatStarts(t: Stamp, rest: seq<u8>)
    ensures Format(t, rest) != [] && Format(t, rest)[0] == Y[0]
  {
  }
}
