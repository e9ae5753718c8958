/** `combinations(bits, size)`: every mask of `size` bits with `bits` of them set, enumerated through
    the permutations of a string of binary digits. */
module Combinations {
  import opened Bits
  import opened Options

  const INT_MAX: int := 0x7fff_ffff

  predicate IsBinary(s: string) {
    forall i :: 0 <= i < |s| ==> s[i] == '0' || s[i] == '1'
  }

  function Digit(c: char): nat {
    if c == '1' then 1 else 0
  }

  /** `std::stoi` on a string of binary digits: they are read as decimal digits. */
  function Stoi(s: string): nat {
    if s == "" then 0 else 10 * Stoi(s[..|s| - 1]) + Digit(s[|s| - 1])
  }

  function FromDecimal(n: nat): nat {
    if n == 0 then 0 else n % 10 + 2 * FromDecimal(n / 10)
  }

  lemma Distribute(factor: nat, digit: nat, x: nat)
    ensures factor * (digit + 2 * x) == digit * factor + (factor * 2) * x
  {
  }

  /** The digits of `n`, each with twice the weight of the one after it. */
  function Weighted(n: nat, factor: nat): nat {
    if n == 0 then 0 else (n % 10) * factor + Weighted(n / 10, factor * 2)
  }

  lemma {:induction false} WeightedIs(n: nat, factor: nat)
    ensures Weighted(n, factor) == factor * FromDecimal(n)
  {
    if n != 0 {
      WeightedIs(n / 10, factor * 2);
      Distribute(factor, n % 10, FromDecimal(n / 10));
    }
  }

  method ConvertBinary(n: nat) returns (total: nat)
    ensures total == FromDecimal(n)
  {
    var factor: nat := 1;
    total := 0;
    var rest: nat := n;
    while rest != 0
      invariant total + Weighted(rest, factor) == Weighted(n, 1)
    {
      total := total + (rest % 10) * factor;
      rest := rest / 10;
      factor := factor * 2;
    }
    WeightedIs(n, 1);
  }

  /** The mask a binary string denotes, first character most significant. */
  function Value(s: string): nat {
    if s == "" then 0 else (if s[0] == '1' then Pow2(|s| - 1) else 0) + Value(s[1..])
  }

  function Ones(s: string): nat {
    if s == "" then 0 else Digit(s[0]) + Ones(s[1..])
  }

  lemma {:induction false} ValueFromLast(s: string)
    requires s != ""
    ensures Value(s) == 2 * Value(s[..|s| - 1]) + Digit(s[|s| - 1])
    ensures Ones(s) == Ones(s[..|s| - 1]) + Digit(s[|s| - 1])
  {
    if |s| > 1 {
      ValueFromLast(s[1..]);
      assert s[1..][..|s| - 2] == s[..|s| - 1][1..];
    }
  }

  /** Reading the digits as decimal and converting digit by digit gives the mask. */
  lemma {:induction false} ConvertsStoi(s: string)
    ensures FromDecimal(Stoi(s)) == Value(s)
  {
    if s != "" {
      ConvertsStoi(s[..|s| - 1]);
      ValueFromLast(s);
      assert Stoi(s) % 10 == Digit(s[|s| - 1]) && Stoi(s) / 10 == Stoi(s[..|s| - 1]);
    }
  }

  lemma {:induction false} ValueRange(s: string)
    ensures Value(s) < Pow2(|s|) && Count(Value(s)) == Ones(s) <= |s|
  {
    if s != "" {
      ValueRange(s[..|s| - 1]);
      ValueFromLast(s);
      assert Value(s) / 2 == Value(s[..|s| - 1]);
    }
  }

  // ---------------------------------------------------------------- the range of std::stoi

  function Pow10(n: nat): nat {
    if n == 0 then 1 else 10 * Pow10(n - 1)
  }

  /** The number written with `n` ones. */
  function Repunit(n: nat): nat {
    if n == 0 then 0 else 10 * Repunit(n - 1) + 1
  }

  lemma {:induction false} StoiBounds(s: string)
    ensures Stoi(s) <= Repunit(|s|)
    ensures s != "" && s[0] == '1' ==> Pow10(|s| - 1) <= Stoi(s)
  {
    if s != "" {
      var init := s[..|s| - 1];
      StoiBounds(init);
      if |s| == 1 {
        assert init == "" && Stoi(init) == 0;
      }
    }
  }

  lemma {:induction false} RepunitMonotone(m: nat, n: nat)
    requires m <= n
    ensures Repunit(m) <= Repunit(n) && Pow10(m) <= Pow10(n)
  {
    if m < n {
      RepunitMonotone(m, n - 1);
    }
  }

  lemma TenDigits()
    ensures Repunit(10) == 1_111_111_111 && Pow10(10) == 10_000_000_000
  {
    assert Repunit(5) == 11_111 && Pow10(5) == 100_000;
    assert Repunit(8) == 11_111_111 && Pow10(8) == 100_000_000;
  }

  /** `std::stoi` accepts all the strings with `bits` ones exactly up to ten digits; beyond, it throws on one of
      them unless there are no ones. */
  lemma StoiFitsIff(bits: nat, size: nat)
    requires bits <= size
    ensures (forall s: string :: IsBinary(s) && |s| == size && Ones(s) == bits ==> Stoi(s) <= INT_MAX) <==>
            size <= 10 || bits == 0
  {
    TenDigits();
    forall s: string | IsBinary(s) && |s| == size && Ones(s) == bits && (size <= 10 || bits == 0)
      ensures Stoi(s) <= INT_MAX
    {
      StoiBounds(s);
      if size <= 10 {
        RepunitMonotone(size, 10);
      } else {
        NoOnes(s);
      }
    }
    if size > 10 && bits > 0 {
      var s := "1" + Sorted(size - 1, bits - 1);
      SortedOnes(size - 1, bits - 1);
      ValueOfCons('1', Sorted(size - 1, bits - 1));
      StoiBounds(s);
      RepunitMonotone(10, size - 1);
      assert IsBinary(s) && |s| == size && Ones(s) == bits && Stoi(s) > INT_MAX;
    }
  }

  lemma {:induction false} NoOnes(s: string)
    requires IsBinary(s) && Ones(s) == 0
    ensures Stoi(s) == 0
  {
    if s != "" {
      ValueFromLast(s);
      NoOnes(s[..|s| - 1]);
    }
  }

  /** The binary string of length `n` that denotes `x`. */
  function Digits(x: nat, n: nat): (s: string)
    requires x < Pow2(n)
    ensures |s| == n && IsBinary(s)
  {
    if n == 0 then "" else Digits(x / 2, n - 1) + (if x % 2 == 1 then "1" else "0")
  }

  lemma {:induction false} DigitsValue(x: nat, n: nat)
    requires x < Pow2(n)
    ensures Value(Digits(x, n)) == x && Ones(Digits(x, n)) == Count(x)
  {
    if n != 0 {
      DigitsValue(x / 2, n - 1);
      var s := Digits(x, n);
      ValueFromLast(s);
      assert s[..n - 1] == Digits(x / 2, n - 1);
    }
  }

  /** The least string of length `n` with `ones` ones. */
  function Sorted(n: nat, ones: nat): (s: string)
    requires ones <= n
    ensures |s| == n && IsBinary(s)
  {
    seq(n, i => if i < n - ones then '0' else '1')
  }

  lemma ValueOfCons(c: char, s: string)
    ensures Value([c] + s) == (if c == '1' then Pow2(|s|) else 0) + Value(s)
    ensures Ones([c] + s) == Digit(c) + Ones(s)
  {
    assert ([c] + s)[1..] == s;
  }

  /** The least string begins with 0 unless it is all ones. */
  lemma SortedHead(n: nat, ones: nat)
    requires ones <= n && 0 < n
    ensures ones < n ==> Sorted(n, ones) == "0" + Sorted(n - 1, ones)
    ensures ones == n ==> Sorted(n, ones) == "1" + Sorted(n - 1, ones - 1)
  {
  }

  lemma {:induction false} SortedIsLeast(s: string)
    requires IsBinary(s)
    ensures Ones(s) <= |s| && Ones(Sorted(|s|, Ones(s))) == Ones(s)
    ensures Value(Sorted(|s|, Ones(s))) <= Value(s)
  {
    ValueRange(s);
    SortedOnes(|s|, Ones(s));
    if s != "" {
      SortedIsLeast(s[1..]);
      SortedHead(|s|, Ones(s));
      ValueOfHead(s);
      var least := if Ones(s) < |s| then Sorted(|s| - 1, Ones(s)) else Sorted(|s| - 1, Ones(s) - 1);
      ValueOfCons(if Ones(s) < |s| then '0' else '1', least);
      ValueRange(s[1..]);
      ValueRange(least);
    }
  }

  lemma ValueOfHead(s: string)
    requires s != ""
    ensures Value(s) == (if s[0] == '1' then Pow2(|s| - 1) else 0) + Value(s[1..])
    ensures Ones(s) == Digit(s[0]) + Ones(s[1..])
  {
  }

  lemma {:induction false} SortedOnes(n: nat, ones: nat)
    requires ones <= n
    ensures Ones(Sorted(n, ones)) == ones
    decreases n
  {
    if n != 0 {
      var t := Sorted(n, ones);
      if ones == n {
        assert t[1..] == Sorted(n - 1, n - 1);
        SortedOnes(n - 1, n - 1);
      } else {
        assert t[1..] == Sorted(n - 1, ones);
        SortedOnes(n - 1, ones);
      }
    }
  }

  /** `std::next_permutation` on binary strings: the next arrangement in lexicographic order, if any.
      NextIsSuccessor below states that property. */
  function Next(s: string): (r: Option<string>)
    requires IsBinary(s)
    ensures r.Some? ==> |r.value| == |s| && IsBinary(r.value)
  {
    if s == "" then None
    else
      var rest := Next(s[1..]);
      if rest.Some? then Some([s[0]] + rest.value)
      else if s[0] == '0' && 0 < Ones(s[1..]) <= |s[1..]| then
        Some("1" + Sorted(|s| - 1, Ones(s[1..]) - 1))
      else None
  }

  lemma {:induction false} NextIsSuccessor(s: string, u: string)
    requires IsBinary(s) && IsBinary(u) && |u| == |s| && Ones(u) == Ones(s)
    ensures Next(s).Some? ==> Ones(Next(s).value) == Ones(s) && Value(s) < Value(Next(s).value)
    ensures Next(s).Some? && Value(s) < Value(u) ==> Value(Next(s).value) <= Value(u)
    ensures Next(s).None? ==> Value(u) <= Value(s)
  {
    if s != "" {
      var tail, utail := s[1..], u[1..];
      ValueRange(tail);
      ValueRange(utail);
      if s[0] == u[0] {
        NextIsSuccessor(tail, utail);
      } else {
        NextIsSuccessor(tail, tail);
      }
      if Next(tail).Some? {
        SuccessorInTail(s, u);
      } else {
        SuccessorAtHead(s, u);
      }
    }
  }

  /** Strings of equal length compare by their first symbols, then by the rest. */
  lemma CompareByHead(c: char, s: string, d: char, t: string)
    requires |s| == |t| && (c == '0' || c == '1') && (d == '0' || d == '1')
    ensures Value([c] + s) < Value([d] + t) <==> (c == '0' && d == '1') || (c == d && Value(s) < Value(t))
  {
    ValueOfCons(c, s);
    ValueOfCons(d, t);
    ValueRange(s);
    ValueRange(t);
  }

  lemma SuccessorInTail(s: string, u: string)
    requires IsBinary(s) && IsBinary(u) && |u| == |s| > 0 && Next(s[1..]).Some?
    requires var t := Next(s[1..]).value;
             && Ones(t) == Ones(s[1..]) && Value(s[1..]) < Value(t)
             && (s[0] == u[0] && Value(s[1..]) < Value(u[1..]) ==> Value(t) <= Value(u[1..]))
    ensures Next(s).Some? && Ones(Next(s).value) == Ones(s) && Value(s) < Value(Next(s).value)
    ensures Value(s) < Value(u) ==> Value(Next(s).value) <= Value(u)
  {
    var t := Next(s[1..]).value;
    assert Next(s) == Some([s[0]] + t);
    Compare(s[0], s[1..], t, u);
    assert s == [s[0]] + s[1..];
  }

  /** Replacing the rest of a string by a larger one that no larger string undercuts. */
  lemma Compare(c: char, tail: string, t: string, u: string)
    requires (c == '0' || c == '1') && IsBinary(u) && |u| == 1 + |tail| && |t| == |tail|
    requires Ones(t) == Ones(tail) && Value(tail) < Value(t)
    requires c == u[0] && Value(tail) < Value(u[1..]) ==> Value(t) <= Value(u[1..])
    ensures Ones([c] + t) == Ones([c] + tail) && Value([c] + tail) < Value([c] + t)
    ensures Value([c] + tail) < Value(u) ==> Value([c] + t) <= Value(u)
  {
    ValueOfCons(c, tail);
    ValueOfCons(c, t);
    assert u == [u[0]] + u[1..];
    CompareByHead(c, tail, u[0], u[1..]);
    CompareByHead(u[0], u[1..], c, t);
  }

  lemma SuccessorAtHead(s: string, u: string)
    requires IsBinary(s) && IsBinary(u) && |u| == |s| > 0 && Ones(u) == Ones(s) && Next(s[1..]).None?
    requires s[0] == u[0] ==> Value(u[1..]) <= Value(s[1..])
    ensures Next(s).Some? ==> Ones(Next(s).value) == Ones(s) && Value(s) < Value(Next(s).value)
    ensures Next(s).Some? && Value(s) < Value(u) ==> Value(Next(s).value) <= Value(u)
    ensures Next(s).None? ==> Value(u) <= Value(s)
  {
    ValueRange(s[1..]);
    if s[0] == '0' && 0 < Ones(s[1..]) {
      HeadBecomesOne(s, u);
    } else {
      NoLarger(s, u);
    }
  }

  lemma NoLarger(s: string, u: string)
    requires IsBinary(s) && IsBinary(u) && |u| == |s| > 0 && Ones(u) == Ones(s)
    requires s[0] == '1' || Ones(s[1..]) == 0
    requires s[0] == u[0] ==> Value(u[1..]) <= Value(s[1..])
    ensures Value(u) <= Value(s)
  {
    ValueOfHead(s);
    ValueOfHead(u);
    assert s == [s[0]] + s[1..] && u == [u[0]] + u[1..];
    CompareByHead(s[0], s[1..], u[0], u[1..]);
  }

  lemma HeadBecomesOne(s: string, u: string)
    requires IsBinary(s) && IsBinary(u) && |u| == |s| > 0 && Ones(u) == Ones(s) && Next(s[1..]).None?
    requires s[0] == '0' && 0 < Ones(s[1..]) <= |s| - 1 && (u[0] == '0' ==> Value(u[1..]) <= Value(s[1..]))
    ensures Next(s).Some? && Ones(Next(s).value) == Ones(s) && Value(s) < Value(Next(s).value)
    ensures Value(s) < Value(u) ==> Value(Next(s).value) <= Value(u)
  {
    var rest := Sorted(|s| - 1, Ones(s[1..]) - 1);
    assert Next(s) == Some("1" + rest);
    SortedOnes(|s| - 1, Ones(s[1..]) - 1);
    LeastRest(s, u);
    AllLarger(s[1..], rest, u);
    assert s == "0" + s[1..];
  }

  lemma LeastRest(s: string, u: string)
    requires IsBinary(s) && IsBinary(u) && |u| == |s| > 0 && Ones(u) == Ones(s) && s[0] == '0'
    ensures u[0] == '1' ==>
              0 < Ones(s[1..]) <= |s| && Value(Sorted(|s| - 1, Ones(s[1..]) - 1)) <= Value(u[1..])
  {
    ValueOfHead(s);
    ValueOfHead(u);
    if u[0] == '1' {
      SortedIsLeast(u[1..]);
    }
  }

  lemma AllLarger(tail: string, rest: string, u: string)
    requires IsBinary(u) && |u| == 1 + |tail| && |rest| == |tail| && Ones(rest) == Ones(tail) - 1
    requires u[0] == '0' ==> Value(u[1..]) <= Value(tail)
    requires u[0] == '1' ==> Value(rest) <= Value(u[1..])
    ensures Ones("1" + rest) == Ones("0" + tail) && Value("0" + tail) < Value("1" + rest)
    ensures Value("0" + tail) < Value(u) ==> Value("1" + rest) <= Value(u)
  {
    ValueOfCons('0', tail);
    ValueOfCons('1', rest);
    assert u == [u[0]] + u[1..];
    CompareByHead('0', tail, '1', rest);
    CompareByHead('0', tail, u[0], u[1..]);
    CompareByHead(u[0], u[1..], '1', rest);
  }

  lemma SuccessorOfMask(s: string, x: nat)
    requires IsBinary(s) && x < Pow2(|s|) && Count(x) == Ones(s)
    ensures Next(s).Some? ==> Ones(Next(s).value) == Ones(s) && Value(s) < Value(Next(s).value)
    ensures Next(s).Some? && Value(s) < x ==> Value(Next(s).value) <= x
    ensures Next(s).None? ==> x <= Value(s)
  {
    DigitsValue(x, |s|);
    NextIsSuccessor(s, Digits(x, |s|));
  }

  predicate Chosen(x: nat, bits: nat, size: nat) {
    x < Pow2(size) && Count(x) == bits
  }

  /** `result` lists the chosen masks below `bound`, in increasing order. */
  ghost predicate Enumerates(result: seq<nat>, bits: nat, size: nat, bound: nat) {
    && (forall i, j :: 0 <= i < j < |result| ==> result[i] < result[j])
    && (forall x: nat :: x in result <==> Chosen(x, bits, size) && x < bound)
  }

  lemma EnumeratesMore(result: seq<nat>, bits: nat, size: nat, mask: nat, bound: nat)
    requires Enumerates(result, bits, size, mask) && Chosen(mask, bits, size) && mask < bound
    requires forall x: nat :: Chosen(x, bits, size) && mask < x ==> bound <= x
    ensures Enumerates(result + [mask], bits, size, bound)
  {
    var longer := result + [mask];
    assert forall i :: 0 <= i < |result| ==> result[i] in result;
    forall x: nat
      ensures x in longer <==> Chosen(x, bits, size) && x < bound
    {
      assert x in longer <==> x in result || x == mask;
    }
  }

  /** The masks between one string and the next are none. */
  lemma NextBound(str: string, bits: nat, size: nat) returns (bound: nat)
    requires |str| == size && IsBinary(str) && Ones(str) == bits
    ensures Value(str) < bound <= Pow2(size) && Chosen(Value(str), bits, size)
    ensures forall x: nat :: Chosen(x, bits, size) && Value(str) < x ==> bound <= x
    ensures Next(str).Some? ==> bound == Value(Next(str).value) && Ones(Next(str).value) == bits
    ensures Next(str).None? ==> bound == Pow2(size)
  {
    ValueRange(str);
    NextIsSuccessor(str, str);
    forall x: nat | Chosen(x, bits, size)
      ensures Next(str).Some? && Value(str) < x ==> Value(Next(str).value) <= x
      ensures Next(str).None? ==> x <= Value(str)
    {
      SuccessorOfMask(str, x);
    }
    bound := Pow2(size);
    if Next(str).Some? {
      bound := Value(Next(str).value);
      ValueRange(Next(str).value);
    }
  }

  lemma FirstMask(bits: nat, size: nat)
    requires bits <= size
    ensures Ones(Sorted(size, bits)) == bits
    ensures Enumerates([], bits, size, Value(Sorted(size, bits)))
  {
    SortedOnes(size, bits);
    forall x: nat | Chosen(x, bits, size)
      ensures Value(Sorted(size, bits)) <= x
    {
      DigitsValue(x, size);
      SortedIsLeast(Digits(x, size));
    }
  }

  lemma {:induction false} DigitsOfValue(s: string)
    requires IsBinary(s)
    ensures Value(s) < Pow2(|s|) && Digits(Value(s), |s|) == s
  {
    ValueRange(s);
    if s != "" {
      DigitsOfValue(s[..|s| - 1]);
      ValueFromLast(s);
    }
  }

  /** `std::stoi` has accepted the strings of all these masks. */
  ghost predicate Accepted(result: seq<nat>, size: nat) {
    forall x: nat :: x in result ==> x < Pow2(size) && Stoi(Digits(x, size)) <= INT_MAX
  }

  lemma AllAccepted(result: seq<nat>, bits: nat, size: nat)
    requires bits <= size && Enumerates(result, bits, size, Pow2(size)) && Accepted(result, size)
    ensures size <= 10 || bits == 0
  {
    forall s: string | IsBinary(s) && |s| == size && Ones(s) == bits
      ensures Stoi(s) <= INT_MAX
    {
      ValueRange(s);
      DigitsOfValue(s);
      assert Value(s) in result;
    }
    StoiFitsIff(bits, size);
  }

  /** Every mask of `size` bits with exactly `bits` set, each once, in increasing order; or `None` for the
      exception of `std::stoi` on more than ten digits. */
  method CombinationsOf(bits: nat, size: nat) returns (combinations: Option<seq<nat>>)
    requires bits <= size
    ensures combinations == None <==> size > 10 && bits > 0
    ensures combinations.Some? ==> forall x: nat :: x in combinations.value <==> Chosen(x, bits, size)
    ensures combinations.Some? ==>
              forall i, j :: 0 <= i < j < |combinations.value| ==> combinations.value[i] < combinations.value[j]
  {
    var str := Sorted(size, bits);
    FirstMask(bits, size);
    var result: seq<nat> := [];
    var more := true;
    ghost var bound := Value(str);
    while more
      invariant |str| == size && IsBinary(str) && Ones(str) == bits
      invariant Enumerates(result, bits, size, bound) && Accepted(result, size)
      invariant bound == if more then Value(str) else Pow2(size)
      decreases more, Pow2(size) - bound
    {
      if Stoi(str) > INT_MAX {
        StoiFitsIff(bits, size);
        return None;
      }
      var mask := ConvertBinary(Stoi(str));
      ConvertsStoi(str);
      DigitsOfValue(str);
      ghost var next := NextBound(str, bits, size);
      EnumeratesMore(result, bits, size, mask, next);
      bound := next;
      result := result + [mask];
      more := Next(str).Some?;
      if more {
        str := Next(str).value;
      }
    }
    AllAccepted(result, bits, size);
    return Some(result);
  }
}
