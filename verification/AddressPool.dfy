/** The address pool for load balancers: the last addresses of the IPv4 network of the cluster. */
module AddressPool {
  import opened Wrappers

  // Words of bits, most significant bit first

  type Bits = seq<bool>

  function Bit(b: bool): nat {
    if b then 1 else 0
  }

  function Value(w: Bits): nat {
    if w == [] then 0 else 2 * Value(w[..|w| - 1]) + Bit(w[|w| - 1])
  }

  function Pow2(n: nat): nat {
    if n == 0 then 1 else 2 * Pow2(n - 1)
  }

  /** The word of the given length with the given value. */
  function Word(v: nat, length: nat): (w: Bits)
    ensures |w| == length
    decreases length
  {
    if length == 0 then [] else Word(v / 2, length - 1) + [v % 2 == 1]
  }

  function And(a: Bits, b: Bits): (c: Bits)
    requires |a| == |b|
    ensures |c| == |a| && forall i :: 0 <= i < |c| ==> c[i] == (a[i] && b[i])
  {
    seq(|a|, i requires 0 <= i < |a| => a[i] && b[i])
  }

  function Or(a: Bits, b: Bits): (c: Bits)
    requires |a| == |b|
    ensures |c| == |a| && forall i :: 0 <= i < |c| ==> c[i] == (a[i] || b[i])
  {
    seq(|a|, i requires 0 <= i < |a| => a[i] || b[i])
  }

  function Xor(a: Bits, b: Bits): (c: Bits)
    requires |a| == |b|
    ensures |c| == |a| && forall i :: 0 <= i < |c| ==> c[i] == (a[i] != b[i])
  {
    seq(|a|, i requires 0 <= i < |a| => a[i] != b[i])
  }

  function Ones(n: nat): (w: Bits)
    ensures |w| == n && forall i :: 0 <= i < n ==> w[i]
  {
    seq(n, i => true)
  }

  lemma {:induction false} ValueAppend(a: Bits, b: Bits)
    ensures Value(a + b) == Value(a) * Pow2(|b|) + Value(b)
    decreases |b|
  {
    if b == [] {
      assert a + b == a;
    } else {
      var n := |b| - 1;
      ValueAppend(a, b[..n]);
      assert (a + b)[..|a| + n] == a + b[..n];
      assert Value(a) * Pow2(|b|) == 2 * (Value(a) * Pow2(n));
    }
  }

  lemma {:induction false} ValueBound(w: Bits)
    ensures Value(w) < Pow2(|w|)
  {
    if w != [] {
      ValueBound(w[..|w| - 1]);
    }
  }

  lemma {:induction false} ValueInjective(a: Bits, b: Bits)
    requires |a| == |b| && Value(a) == Value(b)
    ensures a == b
  {
    if a != [] {
      var n := |a| - 1;
      assert Bit(a[n]) == Value(a) % 2 && Bit(b[n]) == Value(b) % 2;
      ValueInjective(a[..n], b[..n]);
      assert a == a[..n] + [a[n]] && b == b[..n] + [b[n]];
    }
  }

  lemma {:induction false} ValueOfOnes(n: nat)
    ensures Value(Ones(n)) == Pow2(n) - 1
  {
    if n > 0 {
      ValueOfOnes(n - 1);
      assert Ones(n)[..n - 1] == Ones(n - 1);
    }
  }

  lemma {:induction false} ValueOfWord(v: nat, length: nat)
    requires v < Pow2(length)
    ensures Value(Word(v, length)) == v
    decreases length
  {
    if length > 0 {
      ValueOfWord(v / 2, length - 1);
      assert Word(v, length)[..length - 1] == Word(v / 2, length - 1);
    }
  }

  // Networks

  const WIDTH := 32

  /** Pow2(WIDTH), the number of addresses. */
  const WORDS := 0x1_0000_0000

  lemma WordsIsPow2()
    ensures Pow2(WIDTH) == WORDS && Pow2(5) == 32 && Pow2(4) == 16
  {
    assert Pow2(4) == 16 && Pow2(8) == 256 && Pow2(16) == 0x1_0000;
    assert Pow2(24) == 0x100_0000;
  }

  type Address = w: Bits | |w| == WIDTH witness Ones(WIDTH)

  /** The network mask of a prefix length: that many one bits, then zeros (section 3.1 of RFC 4632). */
  function Mask(p: nat): Address
    requires p <= WIDTH
  {
    seq(WIDTH, i => i < p)
  }

  /** An IPv4 network as parsed from CIDR notation: the bits of the address below the prefix are zero. */
  datatype Network = Network(ip: Address, prefix: nat)

  ghost predicate Parsed(n: Network) {
    n.prefix <= WIDTH && And(n.ip, Mask(n.prefix)) == n.ip
  }

  predicate Contains(n: Network, a: Address)
    requires n.prefix <= WIDTH
  {
    And(a, Mask(n.prefix)) == And(n.ip, Mask(n.prefix))
  }

  /** The difference of a word and a number, which wraps around below zero. */
  function Minus(a: Address, k: nat): Address {
    Word((Value(a) - k) % WORDS, WIDTH)
  }

  datatype Pool = Pool(first: Address, last: Address)

  datatype PoolError = StartOutside | EndOutside

  /** The last address as the program computes it. */
  function Finish(n: Network): Address
    requires n.prefix <= WIDTH
  {
    Or(And(n.ip, Mask(n.prefix)), Xor(Mask(n.prefix), Ones(WIDTH)))
  }

  /** The last 20 addresses and one more, if they lie inside the network. */
  function MetalSetup(n: Network): Result<Pool, PoolError>
    requires n.prefix <= WIDTH
  {
    var finish := Finish(n);
    if !Contains(n, Minus(finish, 20)) then Err(StartOutside)
    else if !Contains(n, finish) then Err(EndOutside)
    else Ok(Pool(Minus(finish, 20), finish))
  }

  /** How many addresses a prefix leaves. */
  function Size(p: nat): nat
    requires p <= WIDTH
  {
    Pow2(WIDTH - p)
  }

  lemma ContainsPrefix(n: Network, a: Address)
    requires Parsed(n)
    ensures Contains(n, a) <==> a[..n.prefix] == n.ip[..n.prefix]
  {
    var p := n.prefix;
    if Contains(n, a) {
      forall i | 0 <= i < p
        ensures a[i] == n.ip[i]
      {
        assert And(a, Mask(p))[i] == And(n.ip, Mask(p))[i];
      }
    }
    if a[..p] == n.ip[..p] {
      forall i | 0 <= i < WIDTH
        ensures And(a, Mask(p))[i] == And(n.ip, Mask(p))[i]
      {
        if i < p {
          assert a[..p][i] == n.ip[..p][i];
        }
      }
    }
  }

  /** An address is worth the value of its prefix, scaled, and that of the rest. */
  lemma ValueSplit(a: Address, p: nat)
    requires p <= WIDTH
    ensures Value(a) == Value(a[..p]) * Size(p) + Value(a[p..]) && Value(a[p..]) < Size(p)
  {
    assert a == a[..p] + a[p..];
    ValueAppend(a[..p], a[p..]);
    ValueBound(a[p..]);
  }

  lemma {:induction false} Zeros(w: Bits)
    requires forall i :: 0 <= i < |w| ==> !w[i]
    ensures Value(w) == 0
  {
    if w != [] {
      Zeros(w[..|w| - 1]);
    }
  }

  /** The addresses of a network are the 2^(32-p) ones from its own address on. */
  lemma ContainsRange(n: Network, a: Address)
    requires Parsed(n)
    ensures Contains(n, a) <==> Value(n.ip) <= Value(a) < Value(n.ip) + Size(n.prefix)
  {
    var p := n.prefix;
    ContainsPrefix(n, a);
    ValueSplit(a, p);
    ValueSplit(n.ip, p);
    forall i | p <= i < WIDTH
      ensures !n.ip[i]
    {
      assert And(n.ip, Mask(p))[i] == n.ip[i];
    }
    Zeros(n.ip[p..]);
    SameBlock(Value(n.ip[..p]), Value(a[..p]), Value(a[p..]), Size(p));
    if Value(a[..p]) == Value(n.ip[..p]) {
      ValueInjective(a[..p], n.ip[..p]);
    }
  }

  lemma SameBlock(b: nat, c: nat, rest: nat, size: nat)
    requires rest < size
    ensures b * size <= c * size + rest < b * size + size <==> b == c
  {
    NextMultiple(b, c, size);
    NextMultiple(c, b, size);
  }

  lemma NextMultiple(x: nat, y: nat, size: nat)
    ensures x < y ==> x * size + size <= y * size
  {
    if x < y {
      var d := y - x - 1;
      assert y * size == x * size + size + d * size;
    }
  }

  /** The computed address is base + 2^(32-p) - 1, the last one of the network. */
  lemma FinishIsLast(n: Network)
    requires Parsed(n)
    ensures Value(Finish(n)) == Value(n.ip) + Size(n.prefix) - 1
    ensures Contains(n, Finish(n))
  {
    var p := n.prefix;
    var f := Finish(n);
    forall i | 0 <= i < WIDTH
      ensures f[i] == if i < p then n.ip[i] else true
      ensures i >= p ==> !n.ip[i]
    {
      assert And(n.ip, Mask(p))[i] == n.ip[i];
    }
    assert f[..p] == n.ip[..p] && f[p..] == Ones(WIDTH - p);
    ContainsPrefix(n, f);
    ValueSplit(f, p);
    ValueSplit(n.ip, p);
    Zeros(n.ip[p..]);
    ValueOfOnes(WIDTH - p);
  }

  lemma MinusValue(a: Address, k: nat)
    requires k < WORDS
    ensures Value(Minus(a, k)) == if k <= Value(a) then Value(a) - k else Value(a) - k + WORDS
  {
    ValueBound(a);
    WordsIsPow2();
    ValueOfWord((Value(a) - k) % WORDS, WIDTH);
  }

  lemma {:induction false} Pow2Grows(m: nat, n: nat)
    requires m <= n
    ensures 0 < Pow2(m) <= Pow2(n)
    decreases n
  {
    if m < n {
      Pow2Grows(m, n - 1);
    } else if n > 0 {
      Pow2Grows(n - 1, n - 1);
    }
  }

  lemma RoomForPool(p: nat)
    requires p <= WIDTH
    ensures Size(p) > 20 <==> p <= 27
  {
    WordsIsPow2();
    if p <= 27 {
      Pow2Grows(5, WIDTH - p);
    } else {
      Pow2Grows(WIDTH - p, 4);
    }
  }

  /**
   The pool exists exactly up to prefix length 27. It then consists of the 21 highest addresses of
   the network; otherwise the first check fails, also where the subtraction wraps around.
   */
  lemma PoolIsTop(n: Network)
    requires Parsed(n)
    ensures if n.prefix <= 27 then MetalSetup(n).Ok? else MetalSetup(n) == Err(StartOutside)
    ensures MetalSetup(n).Ok? ==>
              var pool := MetalSetup(n).value;
              && Value(pool.last) == Value(n.ip) + Size(n.prefix) - 1
              && Value(pool.first) == Value(pool.last) - 20
              && forall a: Address :: Value(pool.first) <= Value(a) <= Value(pool.last) ==> Contains(n, a)
  {
    var f := Finish(n);
    FinishIsLast(n);
    MinusValue(f, 20);
    ContainsRange(n, Minus(f, 20));
    RoomForPool(n.prefix);
    ValueBound(f);
    if n.prefix <= 27 {
      forall a: Address | Value(Minus(f, 20)) <= Value(a) <= Value(f)
        ensures Contains(n, a)
      {
        ContainsRange(n, a);
      }
    }
  }
}
