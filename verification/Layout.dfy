/** Names in the backup storage (`internal/backup/layout.go`). */
module Layout {
  import opened Text

  const META_FILE := "meta.json"
  const VERIFY_FILE := "verify.json"
  const DUMP_FILE := "dump.pgc"
  const DUMP_FILE_AGE := "dump.pgc.age"
  const GENERATION_ROOT := "generations/"

  /** A UTC time to the second, as its calendar fields. */
  datatype Utc = Utc(year: nat, month: nat, day: nat, hour: nat, minute: nat, second: nat) {
    predicate Valid() {
      1 <= month <= 12 && 1 <= day <= 31 && hour < 24 && minute < 60 && second < 60
    }

    /** Chronological order. */
    predicate Before(t: Utc) {
      || year < t.year
      || (year == t.year && month < t.month)
      || (year == t.year && month == t.month && day < t.day)
      || (year == t.year && month == t.month && day == t.day && hour < t.hour)
      || (year == t.year && month == t.month && day == t.day && hour == t.hour && minute < t.minute)
      || (year == t.year && month == t.month && day == t.day && hour == t.hour && minute == t.minute
          && second < t.second)
    }
  }

  predicate IsDigit(c: char) { '0' <= c <= '9' }

  function Digit(d: nat): (s: string)
    requires d < 10
    ensures |s| == 1 && IsDigit(s[0])
  {
    ['0' + d as char]
  }

  /** `n` in decimal, zero-padded to at least `width` digits. */
  function Pad(n: nat, width: nat): (s: string)
    ensures |s| >= width && |s| >= 1
    ensures forall c :: c in s ==> IsDigit(c)
    decreases n
  {
    var last := Digit(n % 10);
    if n < 10 then Zeros(width - 1) + last
    else Pad(n / 10, if width == 0 then 0 else width - 1) + last
  }

  /** The number a string of digits stands for. */
  function DecimalValue(s: string): nat {
    if s == "" then 0 else 10 * DecimalValue(s[..|s| - 1]) + Place(s[|s| - 1])
  }

  function Place(c: char): nat {
    if IsDigit(c) then c as int - '0' as int else 0
  }

  lemma ValueSnoc(s: string, d: nat)
    requires d < 10
    ensures DecimalValue(s + Digit(d)) == 10 * DecimalValue(s) + d
  {
    assert (s + Digit(d))[..|s + Digit(d)| - 1] == s;
  }

  lemma {:induction false} ZerosAreNothing(n: int)
    ensures DecimalValue(Zeros(n)) == 0
  {
    if n <= 0 {
    } else {
      ZerosAreNothing(n - 1);
      assert Zeros(n)[..|Zeros(n)| - 1] == Zeros(n - 1);
    }
  }

  /** A printed number stands for itself. */
  lemma {:induction false} PadValue(n: nat, width: nat)
    ensures DecimalValue(Pad(n, width)) == n
    decreases n
  {
    var front := Front(n, width);
    PadIs(n, width);
    assert DecimalValue(front) == n / 10 by {
      if n < 10 {
        ZerosAreNothing(width - 1);
      } else {
        PadValue(n / 10, if width == 0 then 0 else width - 1);
      }
    }
    ValueSnoc(front, n % 10);
  }

  /** All but the last digit. */
  function Front(n: nat, width: nat): string {
    if n < 10 then Zeros(width - 1) else Pad(n / 10, if width == 0 then 0 else width - 1)
  }

  lemma PadIs(n: nat, width: nat)
    ensures Pad(n, width) == Front(n, width) + Digit(n % 10)
  {}

  function Zeros(n: int): (s: string)
    ensures |s| == (if n < 0 then 0 else n)
    ensures forall c :: c in s ==> c == '0'
  {
    if n <= 0 then "" else Zeros(n - 1) + "0"
  }

  function Pow10(w: nat): (p: nat)
    ensures p >= 1
  {
    if w == 0 then 1 else 10 * Pow10(w - 1)
  }

  /** A number that fits the width is printed with exactly that many digits. */
  lemma {:induction false} PadWidth(n: nat, w: nat)
    requires w >= 1
    ensures |Pad(n, w)| == w <==> n < Pow10(w)
    decreases n
  {
    if n < 10 {
      assert Pow10(w) == 10 * Pow10(w - 1) >= 10;
    } else if w == 1 {
      assert Pow10(1) == 10 * Pow10(0);
      assert |Pad(n, 1)| == |Pad(n / 10, 0)| + 1 >= 2;
    } else {
      PadWidth(n / 10, w - 1);
    }
  }

  lemma DigitLess(d: nat, e: nat)
    requires d < 10 && e < 10
    ensures Less(Digit(d), Digit(e)) <==> d < e
    ensures Digit(d) == Digit(e) <==> d == e
  {
    assert Digit(d)[0] == '0' + d as char && Digit(e)[0] == '0' + e as char;
  }

  /** Zero-padded numbers of one width sort as numbers. */
  lemma {:induction false} PadLess(m: nat, n: nat, w: nat)
    requires w >= 1 && m < Pow10(w) && n < Pow10(w)
    ensures Less(Pad(m, w), Pad(n, w)) <==> m < n
    ensures Pad(m, w) == Pad(n, w) <==> m == n
    decreases w
  {
    if w == 1 {
      assert Pow10(1) == 10 * Pow10(0);
      assert Pad(m, 1) == Digit(m) && Pad(n, 1) == Digit(n);
      DigitLess(m, n);
    } else {
      assert Pow10(w) == 10 * Pow10(w - 1);
      PadLess(m / 10, n / 10, w - 1);
      PadLessStep(m, n, w);
      DivLess(m, n);
    }
  }

  lemma DivLess(m: nat, n: nat)
    ensures m < n <==> m / 10 < n / 10 || (m / 10 == n / 10 && m % 10 < n % 10)
    ensures m == n <==> m / 10 == n / 10 && m % 10 == n % 10
  {}

  lemma PadLessStep(m: nat, n: nat, w: nat)
    requires w >= 2 && m / 10 < Pow10(w - 1) && n / 10 < Pow10(w - 1)
    ensures var p, q := Pad(m / 10, w - 1), Pad(n / 10, w - 1);
            && (Less(Pad(m, w), Pad(n, w)) <==> Less(p, q) || (p == q && m % 10 < n % 10))
            && (Pad(m, w) == Pad(n, w) <==> p == q && m % 10 == n % 10)
  {
    PadSplit(m, w);
    PadSplit(n, w);
    PadWidth(m / 10, w - 1);
    PadWidth(n / 10, w - 1);
    DigitLess(m % 10, n % 10);
    LessConcat(Pad(m / 10, w - 1), Digit(m % 10), Pad(n / 10, w - 1), Digit(n % 10));
    ConcatEqual(Pad(m / 10, w - 1), Digit(m % 10), Pad(n / 10, w - 1), Digit(n % 10));
  }

  lemma ConcatEqual(a: string, b: string, c: string, d: string)
    requires |a| == |c|
    ensures a + b == c + d <==> a == c && b == d
  {
    assert (a + b)[..|a|] == a && (a + b)[|a|..] == b;
    assert (c + d)[..|c|] == c && (c + d)[|c|..] == d;
  }

  lemma PadSplit(n: nat, w: nat)
    requires w >= 2
    ensures Pad(n, w) == Pad(n / 10, w - 1) + Digit(n % 10)
  {
    if n < 10 {
      assert Zeros(w - 1) == Zeros(w - 2) + "0";
      assert Pad(0, w - 1) == Zeros(w - 2) + "0";
    }
  }

  function NewID(t: Utc): (id: string) {
    Pad(t.year, 4) + (Pad(t.month, 2) + (Pad(t.day, 2) +
    ("T" + (Pad(t.hour, 2) + (Pad(t.minute, 2) + (Pad(t.second, 2) + "Z"))))))
  }

  /** `^\d{8}T\d{6}Z$` */
  predicate ValidID(id: string) {
    && |id| == 16 && id[8] == 'T' && id[15] == 'Z'
    && (forall i :: 0 <= i < 8 ==> IsDigit(id[i]))
    && (forall i :: 9 <= i < 15 ==> IsDigit(id[i]))
  }

  lemma FieldWidths(t: Utc)
    requires t.Valid()
    ensures |Pad(t.month, 2)| == |Pad(t.day, 2)| == |Pad(t.hour, 2)| == |Pad(t.minute, 2)| == |Pad(t.second, 2)| == 2
    ensures |Pad(t.year, 4)| == 4 <==> t.year <= 9999
  {
    assert Pow10(2) == 100 && Pow10(4) == 10000;
    PadWidth(t.month, 2);
    PadWidth(t.day, 2);
    PadWidth(t.hour, 2);
    PadWidth(t.minute, 2);
    PadWidth(t.second, 2);
    PadWidth(t.year, 4);
  }

  /** Every time up to the year 9999, and no later one, has a valid generation ID. */
  lemma NewIDValid(t: Utc)
    requires t.Valid()
    ensures ValidID(NewID(t)) <==> t.year <= 9999
  {
    FieldWidths(t);
    var date := Pad(t.year, 4) + (Pad(t.month, 2) + Pad(t.day, 2));
    var time := Pad(t.hour, 2) + (Pad(t.minute, 2) + Pad(t.second, 2));
    assert NewID(t) == date + ("T" + (time + "Z"));
    if t.year <= 9999 {
      assert |date| == 8 && |time| == 6;
      assert forall c :: c in date ==> IsDigit(c);
      assert forall c :: c in time ==> IsDigit(c);
      assert forall i :: 0 <= i < 8 ==> NewID(t)[i] == date[i];
      assert forall i :: 9 <= i < 15 ==> NewID(t)[i] == time[i - 9];
    }
  }

  /** The string order of generation IDs is the chronological order. */
  lemma NewIDOrder(a: Utc, b: Utc)
    requires a.Valid() && b.Valid() && a.year <= 9999 && b.year <= 9999
    ensures Less(NewID(a), NewID(b)) <==> a.Before(b)
    ensures NewID(a) == NewID(b) <==> a == b
  {
    FieldWidths(a);
    FieldWidths(b);
    assert Pow10(2) == 100 && Pow10(4) == 10000;
    var a7, b7 := Pad(a.second, 2) + "Z", Pad(b.second, 2) + "Z";
    FieldOrder(a.second, b.second, 2, "Z", "Z");
    var a6, b6 := Pad(a.minute, 2) + a7, Pad(b.minute, 2) + b7;
    FieldOrder(a.minute, b.minute, 2, a7, b7);
    var a5, b5 := Pad(a.hour, 2) + a6, Pad(b.hour, 2) + b6;
    FieldOrder(a.hour, b.hour, 2, a6, b6);
    LessConcat("T", a5, "T", b5);
    assert ("T" + a5)[1..] == a5 && ("T" + b5)[1..] == b5;
    var a3, b3 := Pad(a.day, 2) + ("T" + a5), Pad(b.day, 2) + ("T" + b5);
    FieldOrder(a.day, b.day, 2, "T" + a5, "T" + b5);
    FieldOrder(a.month, b.month, 2, a3, b3);
    FieldOrder(a.year, b.year, 4, Pad(a.month, 2) + a3, Pad(b.month, 2) + b3);
    LessIrreflexive("Z");
    LessIrreflexive("T");
  }

  /** One fixed-width field followed by the rest. */
  lemma FieldOrder(m: nat, n: nat, w: nat, restM: string, restN: string)
    requires w >= 1 && m < Pow10(w) && n < Pow10(w)
    ensures Less(Pad(m, w) + restM, Pad(n, w) + restN) <==> m < n || (m == n && Less(restM, restN))
    ensures Pad(m, w) + restM == Pad(n, w) + restN <==> m == n && restM == restN
  {
    PadWidth(m, w);
    PadWidth(n, w);
    PadLess(m, n, w);
    LessConcat(Pad(m, w), restM, Pad(n, w), restN);
    ConcatEqual(Pad(m, w), restM, Pad(n, w), restN);
  }

  function Key(id: string, name: string): (k: string) {
    GENERATION_ROOT + id + "/" + name
  }

  function GenerationIDFromKey(key: string): (id: string) {
    if !(GENERATION_ROOT <= key) then ""
    else
      var rest := key[|GENERATION_ROOT|..];
      var i := IndexOf(rest, '/');
      if i == |rest| || !ValidID(rest[..i]) then "" else rest[..i]
  }

  /** A key belongs to a generation exactly when it is a name inside its directory. */
  lemma KeyRoundTrip(id: string, key: string)
    requires ValidID(id)
    ensures GenerationIDFromKey(key) == id <==> Key(id, "") <= key
    ensures Key(id, "") <= key <==> exists name :: key == Key(id, name)
  {
    var n := |GENERATION_ROOT|;
    if Key(id, "") <= key {
      assert GENERATION_ROOT <= key by { assert key[..n] == Key(id, "")[..n] == GENERATION_ROOT; }
      var rest := key[n..];
      assert rest[..16] == id by { assert Key(id, "")[n..n + 16] == id; }
      assert rest[16] == '/' by { assert Key(id, "")[n + 16] == '/'; }
      assert IndexOf(rest, '/') == 16 by {
        assert forall j :: 0 <= j < 16 ==> rest[j] == id[j] != '/';
      }
      assert key == Key(id, rest[17..]);
    }
    if GenerationIDFromKey(key) == id {
      var rest := key[n..];
      assert key == GENERATION_ROOT + rest;
      assert rest == id + "/" + rest[17..];
      assert key == Key(id, rest[17..]);
    }
    forall name | key == Key(id, name) ensures Key(id, "") <= key {
      assert Key(id, name)[..|Key(id, "")|] == Key(id, "");
    }
  }

  lemma KeyInjective(id1: string, name1: string, id2: string, name2: string)
    requires |id1| == |id2|
    ensures Key(id1, name1) == Key(id2, name2) <==> id1 == id2 && name1 == name2
  {
    var n, m := |GENERATION_ROOT|, |id1|;
    var k1, k2 := Key(id1, name1), Key(id2, name2);
    assert k1[n..n + m] == id1 && k1[n + m + 1..] == name1;
    assert k2[n..n + m] == id2 && k2[n + m + 1..] == name2;
  }

  /** An ID as it is seen in a bucket. */
  lemma IdExample()
    ensures NewID(Utc(2026, 10, 9, 8, 7, 6)) == "20261009T080706Z"
  {
    TwoDigits();
    assert Pad(2026, 4) == Pad(20, 2) + "2" + "6" == "2026" by {
      assert Pad(202, 3) == Pad(20, 2) + "2";
    }
    assert Pad(6, 2) + "Z" == "06Z";
    assert Pad(7, 2) + "06Z" == "0706Z";
    assert Pad(8, 2) + "0706Z" == "080706Z";
    assert "T" + "080706Z" == "T080706Z";
    assert Pad(9, 2) + "T080706Z" == "09T080706Z";
    assert Pad(10, 2) + "09T080706Z" == "1009T080706Z";
  }

  lemma TwoDigits()
    ensures Pad(20, 2) == "20" && Pad(10, 2) == "10"
    ensures Pad(9, 2) == "09" && Pad(8, 2) == "08" && Pad(7, 2) == "07" && Pad(6, 2) == "06"
  {
    assert Zeros(1) == "0" && Zeros(0) == "";
  }

  /** The keys of a generation. */
  lemma KeysAre(id: string)
    ensures Key(id, META_FILE) == "generations/" + id + "/" + "meta.json"
    ensures Key(id, VERIFY_FILE) == "generations/" + id + "/" + "verify.json"
    ensures Key(id, DUMP_FILE) == "generations/" + id + "/" + "dump.pgc"
    ensures Key(id, DUMP_FILE_AGE) == "generations/" + id + "/" + "dump.pgc.age"
  {}
}
