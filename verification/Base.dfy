/** Shared by the models: optional values, wire bytes, Go's fixed-width integers, and counting. */
module Base {

  datatype Option<+T> = None | Some(value: T)

  type Byte = b: int | 0 <= b < 256

  /** A Go []byte, and a Go string seen as the bytes it holds. */
  type Bytes = seq<Byte>

  type Uint16 = n: int | 0 <= n < 0x1_0000

  /** Go's uint on a 64-bit platform. */
  type Uint64 = n: int | 0 <= n < UINT64_SPAN

  /** The elements of a sequence. */
  ghost function Elems<T>(s: seq<T>): set<T> { set x | x in s }

  lemma ElemsAppend<T>(s: seq<T>, x: T)
    ensures Elems(s + [x]) == Elems(s) + {x}
  {
    assert forall y :: y in s + [x] <==> y in s || y == x;
  }

  lemma {:induction false} SubsetSize<T>(a: set<T>, b: set<T>)
    requires a <= b
    ensures |a| <= |b|
  {
    if a != {} {
      var x :| x in a;
      SubsetSize(a - {x}, b - {x});
    }
  }

  // ---------- sums and counts over sequences ----------

  ghost function Sum<T(!new)>(s: seq<T>, f: T -> nat): nat {
    if s == [] then 0 else Sum(s[..|s| - 1], f) + f(s[|s| - 1])
  }

  lemma {:induction false} SumUpdate<T(!new)>(s: seq<T>, i: nat, x: T, f: T -> nat)
    requires i < |s|
    ensures Sum(s[i := x], f) == Sum(s, f) - f(s[i]) + f(x)
  {
    var n := |s| - 1;
    if i < n {
      assert s[i := x][..n] == s[..n][i := x];
      SumUpdate(s[..n], i, x, f);
    } else {
      assert s[i := x][..n] == s[..n];
    }
  }

  lemma SumAppend<T(!new)>(s: seq<T>, x: T, f: T -> nat)
    ensures Sum(s + [x], f) == Sum(s, f) + f(x)
  {
    assert (s + [x])[..|s|] == s;
  }

  /** If no place gains more than `gain`, the sum gains at most that for each. */
  lemma {:induction false} SumGains<T(!new)>(s: seq<T>, t: seq<T>, f: T -> nat, g: T -> nat, gain: nat)
    requires |s| == |t| && forall i :: 0 <= i < |s| ==> g(t[i]) <= f(s[i]) + gain
    ensures Sum(t, g) <= Sum(s, f) + gain * |s|
  {
    if s != [] {
      assert gain * |s| == gain * (|s| - 1) + gain;
      SumGains(s[..|s| - 1], t[..|s| - 1], f, g, gain);
    }
  }

  /** And if place k falls behind that by `loss`, so does the sum. */
  lemma {:induction false} SumLoses<T(!new)>(
    s: seq<T>, t: seq<T>, f: T -> nat, g: T -> nat, gain: nat, k: nat, loss: nat)
    requires k < |s| == |t| && forall i :: 0 <= i < |s| ==> g(t[i]) <= f(s[i]) + gain
    requires g(t[k]) + loss <= f(s[k]) + gain
    ensures Sum(t, g) + loss <= Sum(s, f) + gain * |s|
  {
    var n := |s| - 1;
    assert gain * |s| == gain * n + gain;
    if k == n {
      SumGains(s[..n], t[..n], f, g, gain);
    } else {
      SumLoses(s[..n], t[..n], f, g, gain, k, loss);
    }
  }

  lemma TimesGrows(m: nat, a: nat, b: nat)
    requires a <= b
    ensures m * a <= m * b
  {
  }

  ghost function Indicator<T(!new)>(p: T -> bool): T -> nat { (x: T) => if p(x) then 1 else 0 }

  ghost function HowMany<T(!new)>(s: seq<T>, p: T -> bool): nat { Sum(s, Indicator(p)) }

  lemma CountUpdate<T(!new)>(s: seq<T>, i: nat, x: T, p: T -> bool)
    requires i < |s|
    ensures HowMany(s[i := x], p) == HowMany(s, p) - (if p(s[i]) then 1 else 0) + (if p(x) then 1 else 0)
  {
    SumUpdate(s, i, x, Indicator(p));
  }

  lemma CountAppend<T(!new)>(s: seq<T>, x: T, p: T -> bool)
    ensures HowMany(s + [x], p) == HowMany(s, p) + if p(x) then 1 else 0
  {
    SumAppend(s, x, Indicator(p));
  }

  lemma {:induction false} CountConcat<T(!new)>(a: seq<T>, b: seq<T>, p: T -> bool)
    ensures HowMany(a + b, p) == HowMany(a, p) + HowMany(b, p)
    decreases |b|
  {
    if b == [] {
      assert a + b == a;
    } else {
      assert (a + b)[..|a + b| - 1] == a + b[..|b| - 1];
      CountConcat(a, b[..|b| - 1], p);
    }
  }

  lemma {:induction false} CountAtMost<T(!new)>(s: seq<T>, p: T -> bool)
    ensures HowMany(s, p) <= |s|
    ensures HowMany(s, p) == 0 <==> forall i :: 0 <= i < |s| ==> !p(s[i])
    ensures HowMany(s, p) == |s| <==> forall i :: 0 <= i < |s| ==> p(s[i])
  {
    if s != [] { CountAtMost(s[..|s| - 1], p); }
  }

  /** A count over a union of disjoint conditions is a sum. */
  lemma {:induction false} CountSplits<T(!new)>(s: seq<T>, p: T -> bool, q: T -> bool, r: T -> bool)
    requires forall x :: !(q(x) && r(x)) && (p(x) <==> q(x) || r(x))
    ensures HowMany(s, p) == HowMany(s, q) + HowMany(s, r)
  {
    if s != [] { CountSplits(s[..|s| - 1], p, q, r); }
  }

  const UINT64_SPAN := 0x1_0000_0000_0000_0000
}
