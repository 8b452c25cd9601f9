/** Chunk file names and the order the manifest check reads them in. */
module ChunkNames {
  import opened Options

  function Digit(d: nat): char
    requires d < 10
  {
    (d + 48) as char
  }

  function Decimal(n: nat): string {
    if n < 10 then [Digit(n)] else Decimal(n / 10) + [Digit(n % 10)]
  }

  /** The `03d` format: at least three digits. */
  function Pad3(n: nat): string {
    if n < 1000 then [Digit(n / 100), Digit(n / 10 % 10), Digit(n % 10)] else Decimal(n)
  }

  const SUFFIX := ".jsonl.gz"

  /** The prefixes of snapshot chunks and of incremental ones. */
  const SNAPSHOT := "sync_"
  const INCREMENTAL := "mutation_"

  function Name(prefix: string, now: nat, index: nat): string {
    prefix + (Decimal(now) + "_" + (Pad3(index) + SUFFIX))
  }

  /** String comparison, character by character; a proper prefix is smaller. */
  predicate Less(a: string, b: string) {
    if b == "" then false
    else if a == "" then true
    else if a[0] != b[0] then a[0] < b[0]
    else Less(a[1..], b[1..])
  }

  lemma {:induction false} LessAfterPrefix(p: string, a: string, b: string)
    ensures Less(p + a, p + b) <==> Less(a, b)
  {
    if p == "" {
      assert p + a == a && p + b == b;
    } else {
      LessAfterPrefix(p[1..], a, b);
      assert (p + a)[1..] == p[1..] + a && (p + b)[1..] == p[1..] + b;
    }
  }

  lemma {:induction false} LessTotal(a: string, b: string)
    ensures Less(a, b) || Less(b, a) || a == b
    ensures !(Less(a, b) && Less(b, a))
    ensures !Less(a, a)
  {
    if a != "" {
      LessTotal(a[1..], a[1..]);
      if b != "" && a[0] == b[0] {
        LessTotal(a[1..], b[1..]);
        if a[1..] == b[1..] {
          assert a == [a[0]] + a[1..] && b == [b[0]] + b[1..];
        }
      }
    }
  }

  lemma {:induction false} LessTransitive(a: string, b: string, c: string)
    requires Less(a, b) && !Less(c, b)
    ensures Less(a, c)
  {
    if a != "" && c != "" && a[0] == b[0] == c[0] {
      LessTransitive(a[1..], b[1..], c[1..]);
    }
  }

  /** Three digits compare as numbers. */
  lemma PaddedAscend(i: nat, k: nat)
    requires i < k < 1000
    ensures Less(Pad3(i) + SUFFIX, Pad3(k) + SUFFIX)
  {
    hide Less, Digit, SUFFIX;
    DigitOrder(i, k);
    ThreeDigits(i / 100, i / 10 % 10, i % 10, k / 100, k / 10 % 10, k % 10);
  }

  lemma DigitOrder(i: nat, k: nat)
    requires i < k < 1000
    ensures i / 100 < 10 && k / 100 < 10
    ensures i / 100 < k / 100
         || (i / 100 == k / 100 && (i / 10 % 10 < k / 10 % 10 || (i / 10 % 10 == k / 10 % 10 && i % 10 < k % 10)))
  {
    assert i == i / 100 * 100 + i / 10 % 10 * 10 + i % 10;
    assert k == k / 100 * 100 + k / 10 % 10 * 10 + k % 10;
  }

  /** Three digits and a suffix compare like the digits. */
  lemma ThreeDigits(a: nat, b: nat, c: nat, x: nat, y: nat, z: nat)
    requires a < 10 && b < 10 && c < 10 && x < 10 && y < 10 && z < 10
    ensures Less([Digit(a), Digit(b), Digit(c)] + SUFFIX, [Digit(x), Digit(y), Digit(z)] + SUFFIX)
      <==> a < x || (a == x && (b < y || (b == y && c < z)))
  {
    hide Less, Digit, SUFFIX;
    TwoDigits(b, c, y, z);
    OneDigit(a, [Digit(b), Digit(c)] + SUFFIX, x, [Digit(y), Digit(z)] + SUFFIX);
    assert [Digit(a), Digit(b), Digit(c)] + SUFFIX == [Digit(a)] + ([Digit(b), Digit(c)] + SUFFIX);
    assert [Digit(x), Digit(y), Digit(z)] + SUFFIX == [Digit(x)] + ([Digit(y), Digit(z)] + SUFFIX);
  }

  lemma TwoDigits(b: nat, c: nat, y: nat, z: nat)
    requires b < 10 && c < 10 && y < 10 && z < 10
    ensures Less([Digit(b), Digit(c)] + SUFFIX, [Digit(y), Digit(z)] + SUFFIX) <==> b < y || (b == y && c < z)
  {
    hide Less, Digit, SUFFIX;
    OneDigit(b, [Digit(c)] + SUFFIX, y, [Digit(z)] + SUFFIX);
    OneDigit(c, SUFFIX, z, SUFFIX);
    LessTotal(SUFFIX, SUFFIX);
    assert [Digit(b), Digit(c)] + SUFFIX == [Digit(b)] + ([Digit(c)] + SUFFIX);
    assert [Digit(y), Digit(z)] + SUFFIX == [Digit(y)] + ([Digit(z)] + SUFFIX);
  }

  lemma OneDigit(d: nat, s: string, e: nat, t: string)
    requires d < 10 && e < 10
    ensures Less([Digit(d)] + s, [Digit(e)] + t) <==> d < e || (d == e && Less(s, t))
  {
    var a, b := [Digit(d)] + s, [Digit(e)] + t;
    assert a[0] == Digit(d) && b[0] == Digit(e) && a[1..] == s && b[1..] == t;
  }

  /** Within one export names compare by their numbers. */
  lemma SameExport(prefix: string, now: nat, i: nat, k: nat)
    ensures Less(Name(prefix, now, i), Name(prefix, now, k)) <==> Less(Pad3(i) + SUFFIX, Pad3(k) + SUFFIX)
  {
    hide Less, Pad3, Decimal, SUFFIX;
    var d := Decimal(now) + "_";
    LessAfterPrefix(prefix, d + (Pad3(i) + SUFFIX), d + (Pad3(k) + SUFFIX));
    LessAfterPrefix(d, Pad3(i) + SUFFIX, Pad3(k) + SUFFIX);
  }

  lemma Thousand()
    ensures Pad3(1000) == "1000" && Pad3(101) == "101"
  {
    assert Decimal(1) == "1" && Decimal(10) == "10" && Decimal(100) == "100" && Decimal(1000) == "1000";
  }

  /** The first name out of order: number 1000 sorts before number 101. */
  lemma ThousandDescends(prefix: string, now: nat)
    ensures Less(Name(prefix, now, 1000), Name(prefix, now, 101))
  {
    hide Less, Pad3, Decimal, SUFFIX;
    SameExport(prefix, now, 1000, 101);
    Thousand();
    OneDigit(1, "000" + SUFFIX, 1, "01" + SUFFIX);
    OneDigit(0, "00" + SUFFIX, 0, "1" + SUFFIX);
    OneDigit(0, "0" + SUFFIX, 1, SUFFIX);
    assert "1000" + SUFFIX == [Digit(1)] + ("000" + SUFFIX) && "101" + SUFFIX == [Digit(1)] + ("01" + SUFFIX);
    assert "000" + SUFFIX == [Digit(0)] + ("00" + SUFFIX) && "01" + SUFFIX == [Digit(0)] + ("1" + SUFFIX);
    assert "00" + SUFFIX == [Digit(0)] + ("0" + SUFFIX) && "1" + SUFFIX == [Digit(1)] + SUFFIX;
  }

  /** Names sort in the order they are written if and only if there are at most 1000 of them. */
  lemma NamesAscendIff(prefix: string, now: nat, n: nat)
    ensures (forall i, k {:trigger Name(prefix, now, i), Name(prefix, now, k)} ::
               0 <= i < k < n ==> Less(Name(prefix, now, i), Name(prefix, now, k)))
      <==> n <= 1000
  {
    hide Name, Less, Pad3;
    if n <= 1000 {
      forall i: nat, k: nat | i < k < n ensures Less(Name(prefix, now, i), Name(prefix, now, k)) {
        PaddedAscend(i, k);
        SameExport(prefix, now, i, k);
      }
    } else {
      ThousandDescends(prefix, now);
      LessTotal(Name(prefix, now, 1000), Name(prefix, now, 101));
    }
  }

  // Names of different exports.

  predicate Digits(s: string) {
    forall c :: c in s ==> '0' <= c <= '9'
  }

  lemma {:induction false} DecimalDigits(n: nat)
    ensures Digits(Decimal(n)) && Decimal(n) != ""
  {
    if n >= 10 {
      DecimalDigits(n / 10);
    }
  }

  function Value(s: string): int {
    if s == "" then 0 else Value(s[..|s| - 1]) * 10 + (s[|s| - 1] as int - 48)
  }

  lemma {:induction false} DecimalValue(n: nat)
    ensures Value(Decimal(n)) == n
  {
    if n >= 10 {
      DecimalValue(n / 10);
      assert Decimal(n)[..|Decimal(n)| - 1] == Decimal(n / 10);
    } else {
      assert Decimal(n)[..0] == "";
    }
  }

  lemma PadValue(n: nat)
    ensures Value(Pad3(n)) == n
  {
    if n < 1000 {
      var s := Pad3(n);
      assert s[..2][..1][..0] == "" && s[..2][..1] == s[..1] && s[..2][1] == s[1];
      assert Value(s[..1]) == n / 100;
      assert Value(s[..2]) == n / 100 * 10 + n / 10 % 10;
    } else {
      DecimalValue(n);
    }
  }

  /** Names of an export at `t` sort before those of an export at `u`. */
  predicate Earlier(t: nat, u: nat) {
    Less(Decimal(t) + "_", Decimal(u) + "_")
  }

  /** Two different numbers followed by `_` decide the comparison, whatever comes after. */
  lemma {:induction false} NumbersDecide(d: string, e: string, p: string, q: string)
    requires Digits(d) && Digits(e) && d != e
    ensures Less(d + "_" + p, e + "_" + q) <==> Less(d + "_", e + "_")
  {
    if d != "" && e != "" && d[0] == e[0] {
      assert d == [d[0]] + d[1..] && e == [e[0]] + e[1..];
      assert forall c :: c in d[1..] ==> c in d;
      assert forall c :: c in e[1..] ==> c in e;
      NumbersDecide(d[1..], e[1..], p, q);
      assert (d + "_" + p)[1..] == d[1..] + "_" + p && (e + "_" + q)[1..] == e[1..] + "_" + q;
      assert (d + "_")[1..] == d[1..] + "_" && (e + "_")[1..] == e[1..] + "_";
    } else {
      assert d != "" ==> d[0] in d;
      assert e != "" ==> e[0] in e;
      assert (d + "_" + p)[0] == (d + "_")[0] && (e + "_" + q)[0] == (e + "_")[0];
    }
  }

  lemma OtherExport(prefix: string, t: nat, i: nat, u: nat, k: nat)
    requires t != u
    ensures Less(Name(prefix, t, i), Name(prefix, u, k)) <==> Earlier(t, u)
  {
    hide Less, Pad3, Decimal, SUFFIX, Value;
    DecimalValue(t);
    DecimalValue(u);
    DecimalDigits(t);
    DecimalDigits(u);
    LessAfterPrefix(prefix, Decimal(t) + "_" + (Pad3(i) + SUFFIX), Decimal(u) + "_" + (Pad3(k) + SUFFIX));
    NumbersDecide(Decimal(t), Decimal(u), Pad3(i) + SUFFIX, Pad3(k) + SUFFIX);
  }

  /** Names are never shared, whatever their numbers. */
  lemma NamesDiffer(prefix: string, t: nat, i: nat, u: nat, k: nat)
    requires t != u || i != k
    ensures Name(prefix, t, i) != Name(prefix, u, k)
  {
    hide Less, Pad3, Decimal, SUFFIX, Name, Earlier;
    if t != u {
      OtherExport(prefix, t, i, u, k);
      OtherExport(prefix, u, k, t, i);
      EarlierTotal(t, u);
      LessTotal(Name(prefix, t, i), Name(prefix, u, k));
    } else {
      NumbersDiffer(prefix, t, i, k);
    }
  }

  lemma EarlierTotal(t: nat, u: nat)
    requires t != u
    ensures Earlier(t, u) <==> !Earlier(u, t)
  {
    hide Less, Decimal, Value;
    DecimalValue(t);
    DecimalValue(u);
    LessTotal(Decimal(t) + "_", Decimal(u) + "_");
    assert (Decimal(t) + "_")[..|Decimal(t)|] == Decimal(t) && (Decimal(u) + "_")[..|Decimal(u)|] == Decimal(u);
  }

  lemma NumbersDiffer(prefix: string, now: nat, i: nat, k: nat)
    requires i != k
    ensures Name(prefix, now, i) != Name(prefix, now, k)
  {
    NumberRecovered(prefix, now, i);
    NumberRecovered(prefix, now, k);
  }

  /** The number of a chunk, read off its name. */
  function NumberOf(prefix: string, now: nat, name: string): int {
    var skip := |prefix| + |Decimal(now)| + 1;
    if skip + |SUFFIX| <= |name| then Value(name[skip..|name| - |SUFFIX|]) else -1
  }

  lemma NumberRecovered(prefix: string, now: nat, i: nat)
    ensures NumberOf(prefix, now, Name(prefix, now, i)) == i
  {
    hide Less, Pad3, Decimal, SUFFIX, Value;
    PadValue(i);
    var d := prefix + (Decimal(now) + "_");
    assert Name(prefix, now, i) == d + Pad3(i) + SUFFIX;
    assert (d + Pad3(i) + SUFFIX)[|d|..|d + Pad3(i)|] == Pad3(i);
  }

  /** Timestamps with equally many digits, as milliseconds will have for two more centuries, sort as numbers. */
  lemma {:induction false} SameLengthSorts(t: nat, u: nat)
    requires |Decimal(t)| == |Decimal(u)|
    ensures Less(Decimal(t), Decimal(u)) <==> t < u
  {
    OneDigitLong(t);
    OneDigitLong(u);
    if t >= 10 && u >= 10 {
      SameLengthSorts(t / 10, u / 10);
      var a, b := Decimal(t / 10), Decimal(u / 10);
      LessAppend(a, b, [Digit(t % 10)], [Digit(u % 10)]);
      DecimalValue(t / 10);
      DecimalValue(u / 10);
      OneDigit(t % 10, "", u % 10, "");
      assert [Digit(t % 10)] + "" == [Digit(t % 10)] && [Digit(u % 10)] + "" == [Digit(u % 10)];
    } else if t < 10 && u < 10 {
      OneDigit(t, "", u, "");
      assert [Digit(t)] + "" == [Digit(t)] && [Digit(u)] + "" == [Digit(u)];
    }
  }

  lemma OneDigitLong(n: nat)
    ensures |Decimal(n)| == 1 <==> n < 10
  {
    if n >= 10 {
      DecimalDigits(n / 10);
    }
  }

  lemma {:induction false} LessAppend(a: string, b: string, p: string, q: string)
    requires |a| == |b|
    ensures Less(a + p, b + q) <==> Less(a, b) || (a == b && Less(p, q))
  {
    if a == "" {
      assert a + p == p && b + q == q;
    } else {
      LessAppend(a[1..], b[1..], p, q);
      assert (a + p)[1..] == a[1..] + p && (b + q)[1..] == b[1..] + q;
      assert a == [a[0]] + a[1..] && b == [b[0]] + b[1..];
    }
  }

  lemma EarlierIff(t: nat, u: nat)
    requires |Decimal(t)| == |Decimal(u)|
    ensures Earlier(t, u) <==> t < u
  {
    SameLengthSorts(t, u);
    LessAppend(Decimal(t), Decimal(u), "_", "_");
    LessTotal("_", "_");
  }

  // Sorting by name.

  predicate Ascending<T>(name: T -> string, xs: seq<T>) {
    forall i, k :: 0 <= i < k < |xs| ==> !Less(name(xs[k]), name(xs[i]))
  }

  ghost predicate StrictlyAscending<T>(name: T -> string, xs: seq<T>) {
    forall i, k :: 0 <= i < k < |xs| ==> Less(name(xs[i]), name(xs[k]))
  }

  function InsertBy<T>(name: T -> string, x: T, xs: seq<T>): seq<T> {
    if xs == [] || !Less(name(xs[0]), name(x)) then [x] + xs else [xs[0]] + InsertBy(name, x, xs[1..])
  }

  function SortBy<T>(name: T -> string, xs: seq<T>): seq<T> {
    if xs == [] then [] else InsertBy(name, xs[0], SortBy(name, xs[1..]))
  }

  lemma {:induction false} InsertAscending<T>(name: T -> string, x: T, xs: seq<T>)
    requires Ascending(name, xs)
    ensures Ascending(name, InsertBy(name, x, xs))
    ensures multiset(InsertBy(name, x, xs)) == multiset{x} + multiset(xs)
  {
    if xs != [] {
      assert xs == [xs[0]] + xs[1..];
      LessTotal(name(x), name(xs[0]));
      if Less(name(xs[0]), name(x)) {
        InsertAscending(name, x, xs[1..]);
        var r := InsertBy(name, x, xs[1..]);
        forall k | 0 <= k < |r| ensures !Less(name(r[k]), name(xs[0])) {
          assert r[k] in multiset(r);
          if r[k] != x {
            assert r[k] in xs[1..];
            var l :| 0 <= l < |xs| - 1 && xs[1..][l] == r[k];
            assert r[k] == xs[l + 1];
          }
        }
        AscendingCons(name, xs[0], r);
      } else {
        forall k | 0 <= k < |xs| ensures !Less(name(xs[k]), name(x)) {
          if Less(name(xs[k]), name(x)) {
            LessTransitive(name(xs[k]), name(x), name(xs[0]));
          }
        }
        AscendingCons(name, x, xs);
      }
    }
  }

  lemma AscendingCons<T>(name: T -> string, x: T, xs: seq<T>)
    requires Ascending(name, xs) && forall k :: 0 <= k < |xs| ==> !Less(name(xs[k]), name(x))
    ensures Ascending(name, [x] + xs)
  {
  }

  /** Sorting by name permutes and sorts. */
  lemma {:induction false} SortIsAscending<T>(name: T -> string, xs: seq<T>)
    ensures Ascending(name, SortBy(name, xs)) && multiset(SortBy(name, xs)) == multiset(xs)
  {
    if xs != [] {
      assert xs == [xs[0]] + xs[1..];
      SortIsAscending(name, xs[1..]);
      InsertAscending(name, xs[0], SortBy(name, xs[1..]));
    }
  }

  lemma {:induction false} SortKeepsAscending<T>(name: T -> string, xs: seq<T>)
    requires StrictlyAscending(name, xs)
    ensures SortBy(name, xs) == xs
  {
    if xs != [] {
      SortKeepsAscending(name, xs[1..]);
      if |xs| > 1 {
        LessTotal(name(xs[0]), name(xs[1]));
      }
      assert xs == [xs[0]] + xs[1..];
    }
  }

  /** Of two items the one whose name is less comes first. */
  lemma SmallerComesFirst<T>(name: T -> string, xs: seq<T>, q: nat, p: nat)
    requires Ascending(name, xs) && p < |xs| && q < |xs| && Less(name(xs[q]), name(xs[p]))
    ensures q < p
  {
    LessTotal(name(xs[p]), name(xs[p]));
  }

  // The files of one export.

  datatype File = File(name: string, bytes: string)

  function FileName(f: File): string {
    f.name
  }

  /** The files of one export, in written order. */
  ghost predicate Written(fs: seq<File>, now: nat) {
    forall i {:trigger fs[i]} :: 0 <= i < |fs| ==> fs[i].name == Name(SNAPSHOT, now, i)
  }

  /** The manifest check reads the files of an export in the order they were written
      if and only if there are at most 1000 of them. */
  lemma SortedIsWrittenOrderIff(fs: seq<File>, now: nat)
    requires Written(fs, now)
    ensures SortBy(FileName, fs) == fs <==> |fs| <= 1000
  {
    hide Less, Name, SortBy;
    NamesAscendIff(SNAPSHOT, now, |fs|);
    if |fs| <= 1000 {
      forall i, k | 0 <= i < k < |fs| ensures Less(FileName(fs[i]), FileName(fs[k])) {
        assert fs[i].name == Name(SNAPSHOT, now, i) && fs[k].name == Name(SNAPSHOT, now, k);
      }
      SortKeepsAscending(FileName, fs);
    } else {
      SortIsAscending(FileName, fs);
      ThousandDescends(SNAPSHOT, now);
      assert FileName(fs[101]) == Name(SNAPSHOT, now, 101) && FileName(fs[1000]) == Name(SNAPSHOT, now, 1000);
    }
  }
}
