/** Small vocabulary shared by every component: optional values, checks that can
    raise, joining, and sorting under an arbitrary total order. */
module Common {

  datatype Option<+T> = None | Some(value: T)

  /** The outcome of a call that may raise: usable with `:-`. */
  datatype Result<+T> = Ok(value: T) | Raise {
    predicate IsFailure() {
      Raise?
    }

    function PropagateFailure<U>(): Result<U>
      requires Raise?
    {
      Raise
    }

    function Extract(): T
      requires Ok?
    {
      value
    }
  }

  /** A call that returns nothing but may raise. */
  datatype Check = Pass | Fail {
    predicate IsFailure() {
      Fail?
    }

    function PropagateFailure<U>(): Result<U>
      requires Fail?
    {
      Raise
    }
  }

  function Require(condition: bool): Check {
    if condition then Pass else Fail
  }

  function Concat<T>(parts: seq<seq<T>>): seq<T> {
    if parts == [] then [] else parts[0] + Concat(parts[1..])
  }

  lemma {:induction false} ConcatAppend<T>(a: seq<seq<T>>, b: seq<seq<T>>)
    ensures Concat(a + b) == Concat(a) + Concat(b)
  {
    if a == [] {
      assert a + b == b;
    } else {
      assert (a + b)[1..] == a[1..] + b;
      ConcatAppend(a[1..], b);
    }
  }

  function Join(parts: seq<string>, separator: string): string {
    if parts == [] then ""
    else if |parts| == 1 then parts[0]
    else parts[0] + separator + Join(parts[1..], separator)
  }

  // ---------- Text ----------

  type Byte = b: int | 0 <= b < 256

  predicate IsDigit(c: char) {
    '0' <= c <= '9'
  }

  predicate IsHex(c: char) {
    IsDigit(c) || 'a' <= c <= 'f' || 'A' <= c <= 'F'
  }

  function HexValue(c: char): (n: nat)
    requires IsHex(c)
    ensures n < 16
  {
    if IsDigit(c) then c as int - '0' as int
    else if 'a' <= c then c as int - 'a' as int + 10
    else c as int - 'A' as int + 10
  }

  /** White space and line terminators, as `trim` and `\s` know them in JavaScript. */
  predicate Blank(c: char) {
    var n := c as int;
    || (9 <= n <= 13) || n == 0x20 || n == 0xA0 || n == 0x1680 || (0x2000 <= n <= 0x200A)
    || n == 0x2028 || n == 0x2029 || n == 0x202F || n == 0x205F || n == 0x3000 || n == 0xFEFF
  }

  function TrimStart(s: string): string {
    if s != "" && Blank(s[0]) then TrimStart(s[1..]) else s
  }

  function TrimEnd(s: string): string {
    if s != "" && Blank(s[|s| - 1]) then TrimEnd(s[..|s| - 1]) else s
  }

  function Trim(s: string): string {
    TrimEnd(TrimStart(s))
  }

  lemma {:induction false} TrimEndKeeps(a: string, b: string)
    ensures TrimEnd(b) != "" ==> TrimEnd(a + b) == a + TrimEnd(b)
    ensures TrimEnd(b) == "" ==> TrimEnd(a + b) == TrimEnd(a)
  {
    if b == "" {
      assert a + b == a;
    } else if Blank(b[|b| - 1]) {
      assert (a + b)[..|a + b| - 1] == a + b[..|b| - 1];
      TrimEndKeeps(a, b[..|b| - 1]);
    }
  }

  predicate AllBlank(s: string) {
    forall c <- s :: Blank(c)
  }

  lemma {:induction false} TrimEndBlank(s: string)
    ensures TrimEnd(s) == "" <==> AllBlank(s)
  {
    if s != "" {
      assert s[|s| - 1] in s;
      if Blank(s[|s| - 1]) {
        TrimEndBlank(s[..|s| - 1]);
        forall c | c in s ensures Blank(c) || c in s[..|s| - 1] {
        }
      }
    }
  }

  lemma {:induction false} LeadTrimmed(lead: string, rest: string)
    requires AllBlank(lead)
    ensures Trim(lead + rest) == Trim(rest)
  {
    if lead == "" {
      assert lead + rest == rest;
    } else {
      assert lead[0] in lead && (lead + rest)[0] == lead[0] && (lead + rest)[1..] == lead[1..] + rest;
      LeadTrimmed(lead[1..], rest);
    }
  }

  /** Trimming takes the white space off both ends and nothing else. */
  lemma {:induction false} TrimMeans(lead: string, text: string, tail: string)
    requires AllBlank(lead) && AllBlank(tail)
    requires text != "" ==> !Blank(text[0]) && !Blank(text[|text| - 1])
    ensures Trim(lead + (text + tail)) == text
  {
    LeadTrimmed(lead, text + tail);
    TrimEndBlank(tail);
    TrimEndKeeps(text, tail);
    if text == "" {
      assert text + tail == tail;
      LeadTrimmed(tail, "");
      assert tail + "" == tail;
    }
  }

  /** The first occurrence of a character, or the length when there is none. */
  function IndexOf(s: string, c: char): (k: nat)
    ensures k <= |s| && (k < |s| ==> s[k] == c) && forall j :: 0 <= j < k ==> s[j] != c
  {
    if s == "" || s[0] == c then 0 else 1 + IndexOf(s[1..], c)
  }

  function Prepend(c: char, rest: Option<string>): Option<string> {
    if rest.None? then None else Some([c] + rest.value)
  }

  /** The UTF-8 encoding of a character (section 3 of RFC 3629). */
  function Utf8(c: char): (bytes: seq<Byte>)
    ensures 1 <= |bytes| <= 4
  {
    var n := c as int;
    if n < 0x80 then [n]
    else if n < 0x800 then [0xC0 + n / 0x40, 0x80 + n % 0x40]
    else if n < 0x1_0000 then [0xE0 + n / 0x1000, 0x80 + n / 0x40 % 0x40, 0x80 + n % 0x40]
    else [0xF0 + n / 0x4_0000, 0x80 + n / 0x1000 % 0x40, 0x80 + n / 0x40 % 0x40, 0x80 + n % 0x40]
  }

  // ---------- Sorting ----------

  ghost predicate TotalOrder<T(!new)>(le: (T, T) -> bool) {
    && (forall x, y :: le(x, y) || le(y, x))
    && (forall x, y :: le(x, y) && le(y, x) ==> x == y)
    && (forall x, y, z :: le(x, y) && le(y, z) ==> le(x, z))
  }

  predicate Sorted<T>(s: seq<T>, le: (T, T) -> bool) {
    forall i, j :: 0 <= i < j < |s| ==> le(s[i], s[j])
  }

  function Insert<T>(x: T, s: seq<T>, le: (T, T) -> bool): seq<T> {
    if s == [] || le(x, s[0]) then [x] + s else [s[0]] + Insert(x, s[1..], le)
  }

  function Sort<T>(s: seq<T>, le: (T, T) -> bool): seq<T> {
    if s == [] then [] else Insert(s[0], Sort(s[1..], le), le)
  }

  lemma {:induction false} InsertContents<T>(x: T, s: seq<T>, le: (T, T) -> bool)
    ensures multiset(Insert(x, s, le)) == multiset{x} + multiset(s)
  {
    if s != [] && !le(x, s[0]) {
      InsertContents(x, s[1..], le);
      assert s == [s[0]] + s[1..];
    }
  }

  lemma {:induction false} SortContents<T>(s: seq<T>, le: (T, T) -> bool)
    ensures multiset(Sort(s, le)) == multiset(s)
  {
    if s != [] {
      SortContents(s[1..], le);
      InsertContents(s[0], Sort(s[1..], le), le);
      assert s == [s[0]] + s[1..];
    }
  }

  lemma {:induction false} SortElements<T>(s: seq<T>, le: (T, T) -> bool)
    ensures forall x :: x in Sort(s, le) <==> x in s
  {
    SortContents(s, le);
    forall x ensures x in Sort(s, le) <==> x in s {
      assert x in s <==> x in multiset(s);
      assert x in Sort(s, le) <==> x in multiset(Sort(s, le));
    }
  }

  lemma {:induction false} InsertSorted<T(!new)>(x: T, s: seq<T>, le: (T, T) -> bool)
    requires TotalOrder(le) && Sorted(s, le)
    ensures Sorted(Insert(x, s, le), le)
  {
    if s != [] && !le(x, s[0]) {
      InsertSorted(x, s[1..], le);
      InsertContents(x, s[1..], le);
      var tail := Insert(x, s[1..], le);
      forall j | 0 <= j < |tail| ensures le(s[0], tail[j]) {
        assert tail[j] in multiset(tail);
        assert tail[j] == x || tail[j] in s[1..];
      }
    } else if s != [] {
      forall j | 0 <= j < |s| ensures le(x, s[j]) {
        assert le(s[0], s[j]);
      }
    }
  }

  lemma {:induction false} SortSorted<T(!new)>(s: seq<T>, le: (T, T) -> bool)
    requires TotalOrder(le)
    ensures Sorted(Sort(s, le), le)
  {
    if s != [] {
      SortSorted(s[1..], le);
      InsertSorted(s[0], Sort(s[1..], le), le);
    }
  }

  lemma {:induction false} SmallestFirst<T(!new)>(a: seq<T>, x: T, le: (T, T) -> bool)
    requires TotalOrder(le) && Sorted(a, le) && x in multiset(a)
    ensures le(a[0], x)
  {
    var i :| 0 <= i < |a| && a[i] == x;
    assert i > 0 ==> le(a[0], a[i]);
  }

  lemma {:induction false} TailContents<T>(s: seq<T>)
    requires s != []
    ensures multiset(s[1..]) + multiset{s[0]} == multiset(s)
  {
    assert s == [s[0]] + s[1..];
  }

  /** A sorted arrangement is determined by its contents. */
  lemma {:induction false} SortedUnique<T(!new)>(a: seq<T>, b: seq<T>, le: (T, T) -> bool)
    requires TotalOrder(le) && Sorted(a, le) && Sorted(b, le)
    requires multiset(a) == multiset(b)
    ensures a == b
  {
    assert |a| == |multiset(a)| == |multiset(b)| == |b|;
    if a != [] {
      assert a[0] in multiset(a) && b[0] in multiset(b);
      SmallestFirst(a, b[0], le);
      SmallestFirst(b, a[0], le);
      TailContents(a);
      TailContents(b);
      RemoveBoth(multiset(a[1..]), multiset(b[1..]), a[0]);
      SortedUnique(a[1..], b[1..], le);
      assert a == [a[0]] + a[1..] && b == [b[0]] + b[1..];
    }
  }

  /** Sorting forgets the order and nothing else. */
  lemma {:induction false} SortCanonical<T(!new)>(a: seq<T>, b: seq<T>, le: (T, T) -> bool)
    requires TotalOrder(le)
    ensures Sort(a, le) == Sort(b, le) <==> multiset(a) == multiset(b)
  {
    SortContents(a, le);
    SortContents(b, le);
    SortSorted(a, le);
    SortSorted(b, le);
    if multiset(a) == multiset(b) {
      SortedUnique(Sort(a, le), Sort(b, le), le);
    }
  }

  // ---------- Contents ----------

  predicate NoDuplicates<T(==)>(s: seq<T>) {
    forall i, j :: 0 <= i < j < |s| ==> s[i] != s[j]
  }

  lemma {:induction false} NoDuplicatesCount<T>(s: seq<T>, x: T)
    requires NoDuplicates(s)
    ensures multiset(s)[x] == if x in s then 1 else 0
  {
    if s != [] {
      NoDuplicatesCount(s[1..], x);
      assert s == [s[0]] + s[1..];
    }
  }

  /** Duplicate-free sequences with the same elements have the same contents. */
  lemma {:induction false} SameElementsSameContents<T>(a: seq<T>, b: seq<T>)
    requires NoDuplicates(a) && NoDuplicates(b)
    requires forall x :: x in a <==> x in b
    ensures multiset(a) == multiset(b)
  {
    forall x ensures multiset(a)[x] == multiset(b)[x] {
      NoDuplicatesCount(a, x);
      NoDuplicatesCount(b, x);
    }
  }

  // ---------- Decimal numbers ----------

  function Digit(n: int): char
    requires 0 <= n < 10
  {
    ('0' as int + n) as char
  }

  function Digits(n: nat): (r: string)
    ensures r != "" && forall i :: 0 <= i < |r| ==> IsDigit(r[i])
  {
    if n < 10 then [Digit(n)] else Digits(n / 10) + [Digit(n % 10)]
  }

  function Decimal(n: int): string {
    if n < 0 then "-" + Digits(-n) else Digits(n)
  }

  function NatValue(digits: string): nat
    requires forall i :: 0 <= i < |digits| ==> IsDigit(digits[i])
  {
    if digits == "" then 0
    else
      assert IsDigit(digits[|digits| - 1]);
      NatValue(digits[..|digits| - 1]) * 10 + (digits[|digits| - 1] as int - '0' as int)
  }

  lemma {:induction false} DigitsValue(n: nat)
    ensures NatValue(Digits(n)) == n
  {
    if n >= 10 {
      DigitsValue(n / 10);
      assert Digits(n)[..|Digits(n)| - 1] == Digits(n / 10);
    } else {
      assert Digits(n)[..0] == "";
    }
  }

  lemma {:induction false} DecimalInjective(a: int, b: int)
    ensures Decimal(a) == Decimal(b) <==> a == b
  {
    DigitsValue(if a < 0 then -a else a);
    DigitsValue(if b < 0 then -b else b);
    assert a >= 0 ==> IsDigit(Digits(a)[0]);
    assert b >= 0 ==> IsDigit(Digits(b)[0]);
    assert a < 0 ==> Decimal(a)[0] == '-' && Decimal(a)[1..] == Digits(-a);
    assert b < 0 ==> Decimal(b)[0] == '-' && Decimal(b)[1..] == Digits(-b);
  }

  lemma {:induction false} WithoutOne<T>(s: seq<T>, j: nat)
    requires j < |s|
    ensures multiset(s) == multiset(Without(s, j)) + multiset{s[j]}
  {
    assert s == s[..j] + [s[j]] + s[j + 1..];
  }

  function Lefts<A, B>(ps: seq<(A, B)>): (r: seq<A>)
    ensures |r| == |ps| && forall i :: 0 <= i < |ps| ==> r[i] == ps[i].0
  {
    if ps == [] then [] else [ps[0].0] + Lefts(ps[1..])
  }

  function Rights<A, B>(ps: seq<(A, B)>): (r: seq<B>)
    ensures |r| == |ps| && forall i :: 0 <= i < |ps| ==> r[i] == ps[i].1
  {
    if ps == [] then [] else [ps[0].1] + Rights(ps[1..])
  }

  function Without<T>(s: seq<T>, j: nat): (r: seq<T>)
    requires j < |s|
    ensures |r| == |s| - 1
    ensures forall i :: 0 <= i < j ==> r[i] == s[i]
    ensures forall i :: j <= i < |r| ==> r[i] == s[i + 1]
  {
    s[..j] + s[j + 1..]
  }

  lemma {:induction false} LeftsWithout<A, B>(q: seq<(A, B)>, j: nat)
    requires j < |q|
    ensures Lefts(Without(q, j)) == Without(Lefts(q), j)
  {
  }

  lemma {:induction false} RightsWithout<A, B>(q: seq<(A, B)>, j: nat)
    requires j < |q|
    ensures Rights(Without(q, j)) == Without(Rights(q), j)
  {
  }

  lemma {:induction false} PairRemoved<A, B>(q: seq<(A, B)>, j: nat)
    requires j < |q|
    ensures multiset(Lefts(q)) == multiset(Lefts(Without(q, j))) + multiset{q[j].0}
    ensures multiset(Rights(q)) == multiset(Rights(Without(q, j))) + multiset{q[j].1}
  {
    LeftsWithout(q, j);
    RightsWithout(q, j);
    WithoutOne(Lefts(q), j);
    WithoutOne(Rights(q), j);
  }

  lemma {:induction false} FindLeft<A, B>(q: seq<(A, B)>, a: A) returns (j: nat)
    requires a in multiset(Lefts(q))
    ensures j < |q| && q[j].0 == a
  {
    assert a in Lefts(q);
    j :| j < |q| && Lefts(q)[j] == a;
  }

  ghost predicate Agree<A, B>(p: seq<(A, B)>, q: seq<(A, B)>) {
    forall x <- p, y <- q :: x.0 == y.0 ==> x.1 == y.1
  }

  lemma {:induction false} AgreeWithout<A, B>(p: seq<(A, B)>, i: nat, q: seq<(A, B)>, j: nat)
    requires i < |p| && j < |q| && Agree(p, q)
    ensures Agree(Without(p, i), Without(q, j))
    ensures p[i].0 == q[j].0 ==> p[i].1 == q[j].1
  {
    assert p[i] in p && q[j] in q;
  }

  /** If pairs agreeing on the left agree on the right, equal contents on the left give
      equal contents on the right. */
  lemma {:induction false} ContentsTransfer<A, B>(p: seq<(A, B)>, q: seq<(A, B)>)
    requires multiset(Lefts(p)) == multiset(Lefts(q)) && Agree(p, q)
    ensures multiset(Rights(p)) == multiset(Rights(q))
  {
    if p == [] {
      assert |Lefts(q)| == |multiset(Lefts(q))| == 0;
      assert q == [];
    } else {
      assert p[0].0 == Lefts(p)[0];
      var j := FindLeft(q, p[0].0);
      PairRemoved(p, 0);
      PairRemoved(q, j);
      AgreeWithout(p, 0, q, j);
      RemoveBoth(multiset(Lefts(Without(p, 0))), multiset(Lefts(Without(q, j))), p[0].0);
      ContentsTransfer(Without(p, 0), Without(q, j));
    }
  }

  lemma {:induction false} RemoveBoth<A>(a: multiset<A>, b: multiset<A>, x: A)
    requires a + multiset{x} == b + multiset{x}
    ensures a == b
  {
    assert a == (a + multiset{x}) - multiset{x};
    assert b == (b + multiset{x}) - multiset{x};
  }

  function Zip<A, B>(a: seq<A>, b: seq<B>): (r: seq<(A, B)>)
    requires |a| == |b|
    ensures |r| == |a| && forall i :: 0 <= i < |a| ==> r[i] == (a[i], b[i])
    ensures Lefts(r) == a && Rights(r) == b
  {
    if a == [] then [] else
      var rest := Zip(a[1..], b[1..]);
      assert a == [a[0]] + a[1..] && b == [b[0]] + b[1..];
      [(a[0], b[0])] + rest
  }

  /** ContentsTransfer for two pairs of sequences given side by side. */
  lemma {:induction false} ContentsFollow<A, B>(a: seq<A>, b: seq<A>, u: seq<B>, v: seq<B>)
    requires |a| == |u| && |b| == |v| && multiset(a) == multiset(b)
    requires forall i, j :: 0 <= i < |a| && 0 <= j < |b| && a[i] == b[j] ==> u[i] == v[j]
    ensures multiset(u) == multiset(v)
  {
    var p, q := Zip(a, u), Zip(b, v);
    forall x, y | x in p && y in q && x.0 == y.0 ensures x.1 == y.1 {
      var i :| 0 <= i < |p| && p[i] == x;
      var j :| 0 <= j < |q| && q[j] == y;
      assert a[i] == b[j];
    }
    ContentsTransfer(p, q);
  }

  ghost predicate SameKernel<A, B>(a: seq<A>, b: seq<A>, u: seq<B>, v: seq<B>)
    requires |a| == |u| && |b| == |v|
  {
    forall i, j :: 0 <= i < |a| && 0 <= j < |b| ==> (a[i] == b[j] <==> u[i] == v[j])
  }

  lemma {:induction false} SameKernelSameContents<A, B>(a: seq<A>, b: seq<A>, u: seq<B>, v: seq<B>)
    requires |a| == |u| && |b| == |v| && SameKernel(a, b, u, v)
    ensures multiset(a) == multiset(b) <==> multiset(u) == multiset(v)
  {
    if multiset(a) == multiset(b) {
      ContentsFollow(a, b, u, v);
    }
    if multiset(u) == multiset(v) {
      ContentsFollow(u, v, a, b);
    }
  }
}
