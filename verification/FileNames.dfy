/** Segment file names and the order in which a directory listing presents them. */
module FileNames {
  import opened Log

  const NAME_DIGITS: nat := 20

  datatype File = File(name: string, bytes: seq<Byte>)

  function Pow10(width: nat): nat {
    if width == 0 then 1 else 10 * Pow10(width - 1)
  }

  function DigitChar(d: nat): char
    requires d < 10
  {
    ('0' as int + d) as char
  }

  predicate IsDigit(c: char) {
    '0' <= c <= '9'
  }

  /** Zero-padded decimal digits, most significant first. */
  function Digits(n: nat, width: nat): (s: string)
    ensures |s| == width
  {
    if width == 0 then [] else Digits(n / 10, width - 1) + [DigitChar(n % 10)]
  }

  function DigitsValue(s: string): nat
    requires forall i :: 0 <= i < |s| ==> IsDigit(s[i])
  {
    if s == [] then 0
    else assert IsDigit(s[|s| - 1]);
         10 * DigitsValue(s[..|s| - 1]) + (s[|s| - 1] as int - '0' as int)
  }

  function FileName(base: nat): string {
    Digits(base, NAME_DIGITS) + ".log"
  }

  predicate HasLogSuffix(name: string) {
    |name| >= 4 && name[|name| - 4..] == ".log"
  }

  /** The base offset that a segment file name carries. */
  function ParseName(name: string): Option<nat> {
    if |name| == NAME_DIGITS + 4 && name[NAME_DIGITS..] == ".log"
       && (forall i :: 0 <= i < NAME_DIGITS ==> IsDigit(name[i]))
    then Some(DigitsValue(name[..NAME_DIGITS]))
    else None
  }

  lemma {:induction false} DigitsRoundTrip(n: nat, width: nat)
    requires n < Pow10(width)
    ensures forall i :: 0 <= i < width ==> IsDigit(Digits(n, width)[i])
    ensures DigitsValue(Digits(n, width)) == n
  {
    if width > 0 {
      DigitsRoundTrip(n / 10, width - 1);
      assert Digits(n, width)[..width - 1] == Digits(n / 10, width - 1);
    }
  }

  lemma NameHoldsEveryOffset()
    ensures TWO_TO_THE_64 <= Pow10(NAME_DIGITS)
  {
    assert Pow10(5) == 100000;
    assert Pow10(10) == 10000000000;
    assert Pow10(15) == 1000000000000000;
    assert Pow10(20) == 100000000000000000000;
  }

  lemma NameRoundTrip(base: nat)
    requires base < TWO_TO_THE_64
    ensures HasLogSuffix(FileName(base)) && ParseName(FileName(base)) == Some(base)
  {
    NameHoldsEveryOffset();
    DigitsRoundTrip(base, NAME_DIGITS);
    assert FileName(base)[..NAME_DIGITS] == Digits(base, NAME_DIGITS);
    assert FileName(base)[NAME_DIGITS..] == ".log";
  }

  lemma EndsInLog(name: string)
    ensures HasLogSuffix(name) <==> exists stem: string :: name == stem + ".log"
  {
    if HasLogSuffix(name) {
      assert name == name[..|name| - 4] + ".log";
    }
  }

  lemma {:induction false} DigitAt(n: nat, width: nat, k: nat) returns (above: nat, below: nat)
    requires k < width
    ensures IsDigit(Digits(n, width)[width - 1 - k])
    ensures n == (10 * above + Digits(n, width)[width - 1 - k] as int - '0' as int) * Pow10(k) + below
    ensures below < Pow10(k)
  {
    if k == 0 {
      above, below := n / 10, 0;
    } else {
      above, below := DigitAt(n / 10, width - 1, k - 1);
      var d := Digits(n, width)[width - 1 - k] as int - '0' as int;
      assert 10 * ((10 * above + d) * Pow10(k - 1)) == (10 * above + d) * Pow10(k);
      below := 10 * below + n % 10;
    }
  }

  /** A segment file is named by its base offset in decimal: the k-th character before the suffix is the
      digit that counts 10^k. */
  lemma NameIsDecimal(base: nat, k: nat) returns (above: nat, below: nat)
    requires k < 20
    ensures |FileName(base)| == 24 && FileName(base)[20..] == ".log"
    ensures IsDigit(FileName(base)[19 - k]) && below < Pow10(k)
    ensures base == (10 * above + FileName(base)[19 - k] as int - '0' as int) * Pow10(k) + below
  {
    above, below := DigitAt(base, NAME_DIGITS, k);
  }

  // --- String order ---

  predicate LexLess(a: string, b: string) {
    if b == [] then false
    else if a == [] then true
    else if a[0] != b[0] then a[0] < b[0]
    else LexLess(a[1..], b[1..])
  }

  lemma {:induction false} LexLessSnoc(a: string, b: string, x: string, y: string)
    requires |a| == |b|
    ensures LexLess(a + x, b + y) <==> LexLess(a, b) || (a == b && LexLess(x, y))
  {
    if a == [] {
      assert a + x == x && b + y == y;
    } else {
      assert (a + x)[1..] == a[1..] + x && (b + y)[1..] == b[1..] + y;
      LexLessSnoc(a[1..], b[1..], x, y);
      assert a == [a[0]] + a[1..] && b == [b[0]] + b[1..];
    }
  }

  lemma {:induction false} DigitsOrder(m: nat, n: nat, width: nat)
    requires m < Pow10(width) && n < Pow10(width)
    ensures LexLess(Digits(m, width), Digits(n, width)) <==> m < n
    ensures Digits(m, width) == Digits(n, width) <==> m == n
  {
    if width > 0 {
      DigitsOrder(m / 10, n / 10, width - 1);
      var x, y := [DigitChar(m % 10)], [DigitChar(n % 10)];
      LexLessSnoc(Digits(m / 10, width - 1), Digits(n / 10, width - 1), x, y);
      assert LexLess(x, y) <==> m % 10 < n % 10;
      assert Digits(m, width)[..width - 1] == Digits(m / 10, width - 1);
      assert Digits(n, width)[..width - 1] == Digits(n / 10, width - 1);
      assert Digits(m, width)[width - 1] == DigitChar(m % 10);
      assert Digits(n, width)[width - 1] == DigitChar(n % 10);
    }
  }

  /** String order of segment file names is numeric order of their base offsets. */
  lemma NameOrderIsOffsetOrder(a: nat, b: nat)
    requires a < TWO_TO_THE_64 && b < TWO_TO_THE_64
    ensures LexLess(FileName(a), FileName(b)) <==> a < b
    ensures FileName(a) == FileName(b) <==> a == b
  {
    NameHoldsEveryOffset();
    DigitsOrder(a, b, NAME_DIGITS);
    LexLessSnoc(Digits(a, NAME_DIGITS), Digits(b, NAME_DIGITS), ".log", ".log");
    assert FileName(a)[..NAME_DIGITS] == Digits(a, NAME_DIGITS);
    assert FileName(b)[..NAME_DIGITS] == Digits(b, NAME_DIGITS);
  }

  lemma {:induction false} LexLessTransitive(a: string, b: string, c: string)
    ensures !LexLess(a, a)
    ensures LexLess(a, b) && LexLess(b, c) ==> LexLess(a, c)
    ensures LexLess(a, b) || a == b || LexLess(b, a)
  {
    if a != [] {
      LexLessTransitive(a[1..], if b == [] then [] else b[1..], if c == [] then [] else c[1..]);
      assert a == [a[0]] + a[1..];
      assert b != [] ==> b == [b[0]] + b[1..];
    }
  }

  // --- sort.Strings over a directory listing ---

  ghost predicate InNameOrder(files: seq<File>) {
    forall i, j :: 0 <= i < j < |files| ==> LexLess(files[i].name, files[j].name)
  }

  function Insert(f: File, files: seq<File>): seq<File> {
    if files == [] || !LexLess(files[0].name, f.name) then [f] + files
    else [files[0]] + Insert(f, files[1..])
  }

  function SortByName(files: seq<File>): seq<File> {
    if files == [] then [] else Insert(files[0], SortByName(files[1..]))
  }

  ghost predicate DistinctNames(files: seq<File>) {
    forall i, j :: 0 <= i < j < |files| ==> files[i].name != files[j].name
  }

  lemma RestInOrder(files: seq<File>)
    requires InNameOrder(files) && files != []
    ensures InNameOrder(files[1..]) && multiset(files[1..]) == multiset(files) - multiset{files[0]}
  {
    hide LexLess;
    assert files == [files[0]] + files[1..];
  }

  lemma PutFirst(f: File, files: seq<File>)
    requires InNameOrder(files) && forall x :: x in files ==> LexLess(f.name, x.name)
    ensures InNameOrder([f] + files) && multiset([f] + files) == multiset(files) + multiset{f}
  {
    hide LexLess;
    forall i, j | 0 <= i < j < |[f] + files| ensures LexLess(([f] + files)[i].name, ([f] + files)[j].name) {
      assert files[j - 1] in files;
    }
  }

  lemma FirstIsLeast(files: seq<File>, x: File)
    requires InNameOrder(files) && files != []
    ensures x in files[1..] ==> LexLess(files[0].name, x.name)
  {
    hide LexLess;
    if x in files[1..] {
      var j :| 1 <= j < |files| && files[j] == x;
    }
  }

  lemma {:induction false} InsertKeepsOrder(f: File, files: seq<File>)
    requires InNameOrder(files) && forall x :: x in files ==> x.name != f.name
    ensures InNameOrder(Insert(f, files))
    ensures multiset(Insert(f, files)) == multiset(files) + multiset{f}
  {
    hide LexLess, InNameOrder;
    if files == [] || !LexLess(files[0].name, f.name) {
      forall x | x in files ensures LexLess(f.name, x.name) {
        FirstIsLeast(files, x);
        LexLessTransitive(f.name, files[0].name, x.name);
        assert x == files[0] || x in files[1..];
      }
      PutFirst(f, files);
    } else {
      RestInOrder(files);
      InsertKeepsOrder(f, files[1..]);
      var rest := Insert(f, files[1..]);
      assert files == [files[0]] + files[1..];
      forall x | x in rest ensures LexLess(files[0].name, x.name) {
        assert x in multiset(rest);
        FirstIsLeast(files, x);
      }
      PutFirst(files[0], rest);
    }
  }

  lemma {:induction false} SortIsOrdered(files: seq<File>)
    requires DistinctNames(files)
    ensures InNameOrder(SortByName(files)) && multiset(SortByName(files)) == multiset(files)
  {
    if files != [] {
      var rest := SortByName(files[1..]);
      SortIsOrdered(files[1..]);
      assert files == [files[0]] + files[1..];
      forall x | x in rest ensures x.name != files[0].name {
        assert x in multiset(rest) && x in files[1..];
        var j :| 1 <= j < |files| && files[j] == x;
      }
      InsertKeepsOrder(files[0], rest);
    }
  }

  lemma SameFirst(a: seq<File>, b: seq<File>)
    requires InNameOrder(a) && InNameOrder(b) && multiset(a) == multiset(b) && a != [] && b != []
    ensures a[0] == b[0]
  {
    assert a[0] in multiset(a) && b[0] in multiset(b);
    var i :| 0 <= i < |a| && a[i] == b[0];
    var j :| 0 <= j < |b| && b[j] == a[0];
    if a[0] != b[0] {
      assert LexLess(a[0].name, a[i].name) && LexLess(b[0].name, b[j].name);
      LexLessTransitive(a[0].name, b[0].name, a[0].name);
    }
  }

  lemma {:induction false} OrderIsUnique(a: seq<File>, b: seq<File>)
    requires InNameOrder(a) && InNameOrder(b) && multiset(a) == multiset(b)
    ensures a == b
  {
    assert |a| == |multiset(a)| == |multiset(b)| == |b|;
    if a != [] {
      SameFirst(a, b);
      hide InNameOrder;
      RestInOrder(a);
      RestInOrder(b);
      OrderIsUnique(a[1..], b[1..]);
      assert a == [a[0]] + a[1..] && b == [b[0]] + b[1..];
    }
  }

  /** However a directory is listed, sorting its names puts the files in their one name order. */
  lemma SortFindsOrder(listed: seq<File>, ordered: seq<File>)
    requires InNameOrder(ordered) && multiset(listed) == multiset(ordered)
    ensures SortByName(listed) == ordered
  {
    forall i, j | 0 <= i < j < |listed| ensures listed[i].name != listed[j].name {
      if listed[i].name == listed[j].name {
        SameNameSameFile(listed, ordered, i, j);
      }
    }
    SortIsOrdered(listed);
    OrderIsUnique(SortByName(listed), ordered);
  }

  lemma SameNameSameFile(listed: seq<File>, ordered: seq<File>, i: nat, j: nat)
    requires InNameOrder(ordered) && multiset(listed) == multiset(ordered)
    requires i < j < |listed|
    ensures listed[i].name != listed[j].name
  {
    if listed[i].name == listed[j].name {
      assert listed[i] in multiset(ordered) && listed[j] in multiset(ordered);
      var p :| 0 <= p < |ordered| && ordered[p] == listed[i];
      var q :| 0 <= q < |ordered| && ordered[q] == listed[j];
      LexLessTransitive(ordered[p].name, ordered[q].name, ordered[p].name);
      assert p == q;
      TwiceInMultiset(listed, i, j);
      OnceInMultiset(ordered, p);
    }
  }

  lemma TwiceInMultiset(s: seq<File>, i: nat, j: nat)
    requires i < j < |s| && s[i] == s[j]
    ensures multiset(s)[s[i]] >= 2
  {
    assert s == s[..j] + [s[j]] + s[j + 1..];
    assert s[i] == s[..j][i];
    assert s[i] in multiset(s[..j]);
  }

  lemma OnceInMultiset(s: seq<File>, p: nat)
    requires InNameOrder(s) && p < |s|
    ensures multiset(s)[s[p]] == 1
  {
    assert s == s[..p] + [s[p]] + s[p + 1..];
    LexLessTransitive(s[p].name, s[p].name, s[p].name);
    assert s[p] !in s[..p];
    assert s[p] !in s[p + 1..];
    assert s[p] !in multiset(s[..p]) && s[p] !in multiset(s[p + 1..]);
  }
}
