/** The bucket size of fine-grained ECMP: for each bank the least common multiple of 1 to its number of
    next hops, added up over the banks. */
module Ecmp {
  import opened Sequences
  import opened StableSort

  // ----- divisors and multiples -----

  ghost predicate Divides(d: int, m: int) {
    exists k: int :: d * k == m
  }

  lemma DividesBy(d: int, k: int)
    ensures Divides(d, d * k)
  {
  }

  lemma DividesThrough(a: int, b: int, c: int)
    requires Divides(a, b) && Divides(b, c)
    ensures Divides(a, c)
  {
    var k :| a * k == b;
    var l :| b * l == c;
    assert a * (k * l) == (a * k) * l;
  }

  lemma DividesSum(d: int, a: int, b: int, s: int, t: int)
    requires Divides(d, a) && Divides(d, b)
    ensures Divides(d, s * a + t * b)
  {
    var k :| d * k == a;
    var l :| d * l == b;
    assert d * (s * k + t * l) == s * (d * k) + t * (d * l);
  }

  lemma DividesBound(d: int, m: int)
    requires Divides(d, m) && d > 0 && m > 0
    ensures d <= m
  {
    var k :| d * k == m;
    PositiveFactor(d, k);
    assert d * k == d * 1 + d * (k - 1);
  }

  // ----- arithmetic -----

  lemma PositiveFactor(d: int, k: int)
    requires d > 0 && d * k > 0
    ensures k > 0
  {
  }

  lemma Cancel(g: int, x: int, y: int)
    requires g > 0 && g * x == g * y
    ensures x == y
  {
    assert g * (x - y) == 0;
  }

  lemma Associate(a: int, b: int, c: int)
    ensures a * (b * c) == (a * b) * c
  {
  }

  lemma Distribute(a: int, x: int, y: int)
    ensures a * (x + y) == a * x + a * y && (x + y) * a == x * a + y * a
  {
  }

  lemma Regroup(a: int, b: int, c: int, d: int)
    ensures (a * b) * (c * d) == (b * c) * (a * d)
  {
    Associate(a * b, c, d);
    Associate(a, b, c);
    assert (a * (b * c)) * d == (b * c) * (a * d) by { Associate(b * c, a, d); }
  }

  lemma QuotientExact(g: int, q: int)
    requires g > 0
    ensures g * q / g == q
  {
    var d, r := g * q / g, g * q % g;
    assert g * q == g * d + r;
    Distribute(g, q, -d);
    assert g * (q - d) == r;
    assert q - d >= 1 ==> g * (q - d) >= g;
    assert q - d <= -1 ==> g * (q - d) <= -g;
  }

  // ----- greatest common divisor -----

  function Gcd(x: nat, y: nat): (g: nat)
    ensures x > 0 || y > 0 ==> g > 0
    decreases y
  {
    if y == 0 then x else Gcd(y, x % y)
  }

  lemma {:induction false} GcdDivides(x: nat, y: nat)
    ensures Divides(Gcd(x, y), x) && Divides(Gcd(x, y), y)
    decreases y
  {
    if y == 0 {
      assert x * 1 == x && x * 0 == y;
    } else {
      var g, q := Gcd(x, y), x / y;
      GcdDivides(y, x % y);
      DividesSum(g, y, x % y, q, 1);
      assert q * y + 1 * (x % y) == x;
    }
  }

  /** The greatest common divisor is a combination of the two numbers. */
  lemma {:induction false} GcdCombines(x: nat, y: nat) returns (s: int, t: int)
    ensures s * x + t * y == Gcd(x, y)
    decreases y
  {
    if y == 0 {
      s, t := 1, 0;
    } else {
      var s', t' := GcdCombines(y, x % y);
      var q := x / y;
      assert x == q * y + x % y;
      s, t := t', s' - t' * q;
      assert s * x + t * y == t' * (x - q * y) + s' * y;
    }
  }

  /** It divides both numbers, and every other common divisor divides it. */
  lemma {:induction false} GcdGreatest(x: nat, y: nat, d: int)
    requires Divides(d, x) && Divides(d, y)
    ensures Divides(d, Gcd(x, y))
  {
    var s, t := GcdCombines(x, y);
    DividesSum(d, x, y, s, t);
  }

  method CalculateGcd(x0: nat, y0: nat) returns (g: nat)
    ensures g == Gcd(x0, y0)
  {
    var x, y := x0, y0;
    while y != 0
      invariant Gcd(x, y) == Gcd(x0, y0)
      decreases y
    {
      x, y := y, x % y;
    }
    g := x;
  }

  // ----- least common multiple -----

  function Lcm2(a: nat, b: nat): nat
    requires a > 0 && b > 0
  {
    a * b / Gcd(a, b)
  }

  /** The quotient is exact: it is a multiple of both numbers. */
  lemma {:induction false} Lcm2Multiple(a: nat, b: nat)
    requires a > 0 && b > 0
    ensures Lcm2(a, b) > 0 && Gcd(a, b) * Lcm2(a, b) == a * b
    ensures Divides(a, Lcm2(a, b)) && Divides(b, Lcm2(a, b))
  {
    var g := Gcd(a, b);
    GcdDivides(a, b);
    var u :| g * u == a;
    var v :| g * v == b;
    PositiveFactor(g, u);
    PositiveFactor(g, v);
    var l := a * v;
    Associate(g, a, v);
    Associate(a, g, v);
    assert g * l == a * b;
    QuotientExact(g, l);
    Associate(g, u, b);
    Cancel(g, l, u * b);
    assert b * u == l;
  }

  /** It divides every other multiple of both. */
  lemma Lcm2Least(a: nat, b: nat, m: int)
    requires a > 0 && b > 0 && Divides(a, m) && Divides(b, m)
    ensures Divides(Lcm2(a, b), m)
  {
    var g, l := Gcd(a, b), Lcm2(a, b);
    Lcm2Multiple(a, b);
    var s, t := GcdCombines(a, b);
    var u :| a * u == m;
    var v :| b * v == m;
    var w := s * v + t * u;
    Distribute(m, s * a, t * b);
    Regroup(s, a, b, v);
    Regroup(t, b, a, u);
    Distribute(a * b, s * v, t * u);
    assert g * m == (a * b) * w;
    Associate(g, l, w);
    Cancel(g, m, l * w);
  }

  /** The least common multiple of 1 to `n`, folded as the code does. */
  function Lcm(n: nat): (l: nat)
    ensures l > 0
  {
    if n <= 1 then 1 else (Lcm2Multiple(Lcm(n - 1), n); Lcm2(Lcm(n - 1), n))
  }

  ghost predicate MultipleOfAll(n: nat, m: int) {
    forall i :: 1 <= i <= n ==> Divides(i, m)
  }

  /** It is a multiple of all of 1 to `n`, and divides every other such multiple; so it is the least. */
  lemma {:induction false} LcmExact(n: nat)
    ensures MultipleOfAll(n, Lcm(n))
    ensures forall m: int :: MultipleOfAll(n, m) ==> Divides(Lcm(n), m) && (m > 0 ==> Lcm(n) <= m)
  {
    LcmMultiple(n);
    forall m: int | MultipleOfAll(n, m) ensures Divides(Lcm(n), m) && (m > 0 ==> Lcm(n) <= m) {
      LcmLeast(n, m);
      if m > 0 { DividesBound(Lcm(n), m); }
    }
  }

  lemma {:induction false} LcmMultiple(n: nat)
    ensures MultipleOfAll(n, Lcm(n))
  {
    if n <= 1 {
      DividesBy(1, 1);
    } else {
      LcmMultiple(n - 1);
      Lcm2Multiple(Lcm(n - 1), n);
      forall i | 1 <= i <= n ensures Divides(i, Lcm(n)) {
        if i < n { DividesThrough(i, Lcm(n - 1), Lcm(n)); }
      }
    }
  }

  lemma {:induction false} LcmLeast(n: nat, m: int)
    requires MultipleOfAll(n, m)
    ensures Divides(Lcm(n), m)
  {
    if n <= 1 {
      DividesBy(1, m);
    } else {
      LcmLeast(n - 1, m);
      Lcm2Least(Lcm(n - 1), n, m);
    }
  }

  method LcmNext(l: nat, i: nat) returns (r: nat)
    requires l > 0 && i > 0
    ensures r == Lcm2(l, i)
  {
    var g := CalculateGcd(l, i);
    Lcm2Multiple(l, i);
    r := l * i / g;
  }

  method LcmUpTo(n: nat) returns (l: nat)
    ensures l == Lcm(n)
  {
    l := 1;
    if n > 1 {
      for i := 2 to n + 1
        invariant l == Lcm(i - 1)
      {
        l := LcmNext(l, i);
      }
    }
  }

  // ----- banks -----

  /** The number of next hops in bank `b`, given the bank of each. */
  function Count(banks: seq<nat>, b: nat): nat {
    if banks == [] then 0 else Count(banks[..|banks| - 1], b) + if banks[|banks| - 1] == b then 1 else 0
  }

  /** The members of the first `n` banks. */
  function Members(banks: seq<nat>, n: nat): nat {
    if n == 0 then 0 else Members(banks, n - 1) + Count(banks, n - 1)
  }

  /** The buckets that the first `n` banks get; a bank without next hops is not enumerated. */
  function Buckets(banks: seq<nat>, n: nat): nat {
    if n == 0 then 0 else Buckets(banks, n - 1) + if Count(banks, n - 1) == 0 then 0 else Lcm(Count(banks, n - 1))
  }

  /** Every next hop is a member of exactly one bank. */
  lemma {:induction false} MembersAddUp(banks: seq<nat>, n: nat)
    requires forall i :: 0 <= i < |banks| ==> banks[i] < n
    ensures Members(banks, n) == |banks|
  {
    if banks == [] {
      NoMembers(n);
    } else {
      var k := |banks| - 1;
      MembersAddUp(banks[..k], n);
      MembersSnoc(banks, n);
    }
  }

  lemma {:induction false} NoMembers(n: nat)
    ensures Members([], n) == 0
  {
    if n > 0 { NoMembers(n - 1); }
  }

  lemma {:induction false} MembersSnoc(banks: seq<nat>, n: nat)
    requires banks != []
    ensures Members(banks, n) == Members(banks[..|banks| - 1], n) + if banks[|banks| - 1] < n then 1 else 0
  {
    if n > 0 { MembersSnoc(banks, n - 1); }
  }

  method CountBank(banks: seq<nat>, b: nat) returns (count: nat)
    ensures count == Count(banks, b)
  {
    count := 0;
    for i := 0 to |banks|
      invariant count == Count(banks[..i], b)
    {
      assert banks[..i + 1][..i] == banks[..i];
      if banks[i] == b {
        count := count + 1;
      }
    }
    assert banks[..|banks|] == banks;
  }

  /** The bucket size for `n` banks. */
  method CalculateLcmForEcmp(banks: seq<nat>, n: nat) returns (size: nat)
    ensures size == Buckets(banks, n)
  {
    size := 0;
    for value := 0 to n
      invariant size == Buckets(banks, value)
    {
      var count := CountBank(banks, value);
      if count > 0 {
        var l := LcmUpTo(count);
        size := size + l;
      }
    }
  }

  // ----- which device is which bank -----

  /** The devices in order, each once. */
  function Enumerated(devices: seq<string>): seq<string> {
    if devices == [] then []
    else
      var init, last := Enumerated(devices[..|devices| - 1]), devices[|devices| - 1];
      if last in init then init else Insert(StringLe, last, init)
  }

  /** The bank of a device is its place in the enumeration. */
  function BankOf(device: string, devices: seq<string>): (b: nat)
    requires device in devices
    ensures b < |devices| && devices[b] == device
  {
    if devices[|devices| - 1] == device then |devices| - 1 else BankOf(device, devices[..|devices| - 1])
  }

  lemma {:induction false} InsertIn(x: string, s: seq<string>)
    ensures forall y :: y in Insert(StringLe, x, s) <==> y == x || y in s
  {
    if !(s == [] || StringLe(s[|s| - 1], x)) {
      var init, last := s[..|s| - 1], s[|s| - 1];
      InsertIn(x, init);
      assert s == init + [last];
    }
  }

  lemma {:induction false} EnumeratedIn(devices: seq<string>)
    ensures forall d :: d in Enumerated(devices) <==> d in devices
  {
    if devices != [] {
      var n := |devices| - 1;
      EnumeratedIn(devices[..n]);
      assert devices == devices[..n] + [devices[n]];
      InsertIn(devices[n], Enumerated(devices[..n]));
    }
  }

  lemma StringsOrdered()
    ensures TotalPreorder(StringLe)
  {
    forall a, b ensures StringLe(a, b) || StringLe(b, a) { StringLeTotal(a, b); }
    forall a, b, c | StringLe(a, b) && StringLe(b, c) ensures StringLe(a, c) { StringLeTransitive(a, b, c); }
  }

  /** Banks are numbered in the order of the device names. */
  lemma {:induction false} EnumeratedSorted(devices: seq<string>)
    ensures Sorted(StringLe, Enumerated(devices))
  {
    if devices != [] {
      var n := |devices| - 1;
      EnumeratedSorted(devices[..n]);
      StringsOrdered();
      InsertSorted(StringLe, devices[n], Enumerated(devices[..n]));
    }
  }

  /** The bank of each next hop, given its device. */
  function Banks(devices: seq<string>): seq<nat> {
    EnumeratedIn(devices);
    var order := Enumerated(devices);
    seq(|devices|, i requires 0 <= i < |devices| => BankOf(devices[i], order))
  }

  /** The whole bucket size, bank by bank, for next hops on the given devices; all next hops are in the
      banks, and all banks have next hops. */
  method FormulateFineGrainedEcmp(devices: seq<string>) returns (bucketSize: nat)
    ensures var banks, n := Banks(devices), |Enumerated(devices)|;
            && bucketSize == Buckets(banks, n) && Members(banks, n) == |devices|
            && forall b: nat :: b < n ==> Count(banks, b) > 0
  {
    var banks, n := Banks(devices), |Enumerated(devices)|;
    bucketSize := CalculateLcmForEcmp(banks, n);
    EnumeratedIn(devices);
    MembersAddUp(banks, n);
    forall b: nat | b < n ensures Count(banks, b) > 0 { BankUsed(devices, b); }
  }

  lemma {:induction false} CountPositive(banks: seq<nat>, i: nat)
    requires i < |banks|
    ensures Count(banks, banks[i]) > 0
  {
    if i < |banks| - 1 { CountPositive(banks[..|banks| - 1], i); }
  }

  lemma {:induction false} BankUsed(devices: seq<string>, b: nat)
    requires b < |Enumerated(devices)|
    ensures Count(Banks(devices), b) > 0
  {
    var order := Enumerated(devices);
    EnumeratedIn(devices);
    assert order[b] in devices;
    var i :| 0 <= i < |devices| && devices[i] == order[b];
    EnumeratedDistinct(devices);
    assert order[Banks(devices)[i]] == order[b];
    CountPositive(Banks(devices), i);
  }

  lemma {:induction false} InsertDifferent(x: string, s: seq<string>)
    requires Distinct(s) && x !in s
    ensures Distinct(Insert(StringLe, x, s))
  {
    if !(s == [] || StringLe(s[|s| - 1], x)) {
      var init, last := s[..|s| - 1], s[|s| - 1];
      InsertDifferent(x, init);
      InsertIn(x, init);
      assert last !in init;
    }
  }

  lemma {:induction false} EnumeratedDistinct(devices: seq<string>)
    ensures Distinct(Enumerated(devices))
  {
    if devices != [] {
      var n := |devices| - 1;
      EnumeratedDistinct(devices[..n]);
      var init := Enumerated(devices[..n]);
      if devices[n] !in init { InsertDifferent(devices[n], init); }
    }
  }
}
