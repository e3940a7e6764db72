/** 32-bit words as JavaScript's bitwise operators see them, over naturals
    below 2^32: `^` bit by bit, `>>>` as division by a power of two, and
    `Math.imul` as the product modulo 2^32. */
module Word32 {
  const Modulus: nat := 0x1_0000_0000

  function Pow2(n: nat): (r: nat)
    ensures r >= 1
  {
    if n == 0 then 1 else 2 * Pow2(n - 1)
  }

  /** `a ^ b` on non-negative integers, one bit at a time from the lowest. */
  function Xor(a: nat, b: nat): nat
    decreases a + b
  {
    if a == 0 && b == 0 then 0
    else 2 * Xor(a / 2, b / 2) + (if a % 2 == b % 2 then 0 else 1)
  }

  lemma {:induction false} XorBound(a: nat, b: nat, n: nat)
    requires a < Pow2(n) && b < Pow2(n)
    ensures Xor(a, b) < Pow2(n)
    decreases a + b
  {
    if !(a == 0 && b == 0) {
      XorBound(a / 2, b / 2, n - 1);
    }
  }

  lemma {:induction false} XorZero(a: nat)
    ensures Xor(a, 0) == a
    decreases a
  {
    if a != 0 {
      XorZero(a / 2);
    }
  }

  lemma {:induction false} XorSelf(a: nat)
    ensures Xor(a, a) == 0
    decreases a
  {
    if a != 0 {
      XorSelf(a / 2);
    }
  }

  lemma {:induction false} XorComm(a: nat, b: nat)
    ensures Xor(a, b) == Xor(b, a)
    decreases a + b
  {
    if !(a == 0 && b == 0) {
      XorComm(a / 2, b / 2);
    }
  }

  lemma XorHalves(a: nat, b: nat)
    ensures Xor(a, b) / 2 == Xor(a / 2, b / 2)
    ensures Xor(a, b) % 2 == (if a % 2 == b % 2 then 0 else 1)
  {
  }

  lemma {:induction false} XorAssoc(a: nat, b: nat, c: nat)
    ensures Xor(Xor(a, b), c) == Xor(a, Xor(b, c))
    decreases a + b + c
  {
    if !(a == 0 && b == 0 && c == 0) {
      XorAssoc(a / 2, b / 2, c / 2);
      XorHalves(a, b);
      XorHalves(b, c);
      XorHalves(Xor(a, b), c);
      XorHalves(a, Xor(b, c));
      var l, r := Xor(Xor(a, b), c), Xor(a, Xor(b, c));
      assert l / 2 == r / 2 && l % 2 == r % 2;
    } else {
      XorZero(0);
    }
  }

  /** `(x ^ a) ^ a == x` */
  lemma XorCancel(x: nat, a: nat)
    ensures Xor(Xor(x, a), a) == x
  {
    XorAssoc(x, a, a);
    XorSelf(a);
    XorZero(x);
  }

  /** `a >>> n`: `n` halvings, each dropping the lowest bit. */
  function Shr(a: nat, n: nat): (r: nat)
    ensures r <= a
  {
    if n == 0 then a else Shr(a, n - 1) / 2
  }

  lemma {:induction false} ShrShr(a: nat, m: nat, n: nat)
    ensures Shr(Shr(a, m), n) == Shr(a, m + n)
    decreases n
  {
    if n > 0 {
      ShrShr(a, m, n - 1);
    }
  }

  /** Shifting distributes over `^`. */
  lemma {:induction false} XorShr(a: nat, b: nat, n: nat)
    ensures Shr(Xor(a, b), n) == Xor(Shr(a, n), Shr(b, n))
    decreases n
  {
    if n > 0 {
      XorShr(a, b, n - 1);
      XorHalves(Shr(a, n - 1), Shr(b, n - 1));
    }
  }

  /** Shifting a word out entirely leaves nothing. */
  lemma {:induction false} SmallShr(a: nat, n: nat)
    requires a < Pow2(n)
    ensures Shr(a, n) == 0
    decreases n
  {
    if n > 0 {
      SmallShr(a / 2, n - 1);
      ShrHalf(a, n - 1);
    }
  }

  lemma {:induction false} ShrHalf(a: nat, n: nat)
    ensures Shr(a / 2, n) == Shr(a, n + 1)
    decreases n
  {
    if n > 0 {
      ShrHalf(a, n - 1);
    }
  }

  lemma Pow2Values()
    ensures Pow2(32) == Modulus
  {
    assert Pow2(1) == 2;
    assert Pow2(2) == 4;
    assert Pow2(3) == 8;
    assert Pow2(4) == 16;
    assert Pow2(5) == 32;
    assert Pow2(6) == 64;
    assert Pow2(7) == 128;
    assert Pow2(8) == 256;
    assert Pow2(9) == 512;
    assert Pow2(10) == 1024;
    assert Pow2(11) == 2048;
    assert Pow2(12) == 4096;
    assert Pow2(13) == 8192;
    assert Pow2(14) == 16384;
    assert Pow2(15) == 32768;
    assert Pow2(16) == 65536;
    assert Pow2(17) == 131072;
    assert Pow2(18) == 262144;
    assert Pow2(19) == 524288;
    assert Pow2(20) == 1048576;
    assert Pow2(21) == 2097152;
    assert Pow2(22) == 4194304;
    assert Pow2(23) == 8388608;
    assert Pow2(24) == 16777216;
    assert Pow2(25) == 33554432;
    assert Pow2(26) == 67108864;
    assert Pow2(27) == 134217728;
    assert Pow2(28) == 268435456;
    assert Pow2(29) == 536870912;
    assert Pow2(30) == 1073741824;
    assert Pow2(31) == 2147483648;
    assert Pow2(32) == 4294967296;
  }

  /** `Math.imul(a, b)`: the low 32 bits of the product. */
  function Imul(a: nat, b: nat): (r: nat)
    ensures r < Modulus
  {
    (a * b) % Modulus
  }

  /** `(h << 13) | (h >>> 19)`: the two halves occupy different bits, so
      the `|` adds them. */
  function Rotl13(h: nat): (r: nat)
    requires h < Modulus
    ensures r < Modulus
  {
    (h % 524288) * 8192 + h / 524288
  }

  /** Rotating right by 13 bits undoes `Rotl13`. */
  lemma Rotl13Inverse(h: nat)
    requires h < Modulus
    ensures var r := Rotl13(h); r / 8192 + (r % 8192) * 524288 == h
  {
    var q, low := h / 524288, h % 524288;
    var r := Rotl13(h);
    assert r == low * 8192 + q && q < 8192;
    assert r / 8192 == low && r % 8192 == q;
  }

  /** `h ^ (h >>> 16)` */
  function XorShift16(h: nat): (r: nat)
    requires h < Modulus
    ensures r < Modulus
  {
    Pow2Values();
    XorBound(h, Shr(h, 16), 32);
    Xor(h, Shr(h, 16))
  }

  /** `h ^ (h >>> 13)` */
  function XorShift13(h: nat): (r: nat)
    requires h < Modulus
    ensures r < Modulus
  {
    Pow2Values();
    XorBound(h, Shr(h, 13), 32);
    Xor(h, Shr(h, 13))
  }

  /** The inverse of `XorShift13` on 32 bits: `h ^ (h >>> 13) ^ (h >>> 26)`. */
  function UnXorShift13(h: nat): (r: nat)
    requires h < Modulus
    ensures r < Modulus
  {
    Pow2Values();
    XorBound(h, Shr(h, 13), 32);
    XorBound(Xor(h, Shr(h, 13)), Shr(h, 26), 32);
    Xor(Xor(h, Shr(h, 13)), Shr(h, 26))
  }

  /** `x ^ (x >>> 16)` is its own inverse on 32 bits. */
  lemma XorShift16Involution(h: nat)
    requires h < Modulus
    ensures XorShift16(XorShift16(h)) == h
  {
    Pow2Values();
    var s := Shr(h, 16);
    XorShr(h, s, 16);
    ShrShr(h, 16, 16);
    SmallShr(h, 32);
    XorZero(s);
    XorCancel(h, s);
  }

  lemma XorShift13Inverse(h: nat)
    requires h < Modulus
    ensures UnXorShift13(XorShift13(h)) == h
  {
    Pow2Values();
    var a, b := Shr(h, 13), Shr(h, 26);
    var y := XorShift13(h);
    XorShr(h, a, 13);
    ShrShr(h, 13, 13);
    XorShr(h, a, 26);
    ShrShr(h, 13, 26);
    Pow2Grows(32, 39);
    SmallShr(h, 39);
    XorZero(b);
    assert Shr(y, 13) == Xor(a, b);
    assert Shr(y, 26) == b;
    XorAssoc(Xor(h, a), a, b);
    XorCancel(h, a);
    XorCancel(h, b);
  }

  lemma {:induction false} Pow2Grows(m: nat, n: nat)
    requires m <= n
    ensures Pow2(m) <= Pow2(n)
    decreases n
  {
    if m < n {
      Pow2Grows(m, n - 1);
    }
  }

  /** Multiplying by an odd constant and then by its inverse modulo 2^32
      gives the word back. */
  lemma ImulInverse(h: nat, k: nat, kInverse: nat, t: nat)
    requires h < Modulus && k * kInverse == t * Modulus + 1
    ensures Imul(Imul(h, k), kInverse) == h
  {
    var p := h * k;
    var q := p / Modulus;
    assert Imul(h, k) == p - q * Modulus;
    calc {
      Imul(h, k) * kInverse;
      p * kInverse - q * Modulus * kInverse;
      h * (t * Modulus + 1) - q * kInverse * Modulus;
      h + (h * t - q * kInverse) * Modulus;
    }
    ModShift(h, h * t - q * kInverse);
  }

  lemma ModShift(h: nat, m: int)
    requires h < Modulus && h + m * Modulus >= 0
    ensures (h + m * Modulus) % Modulus == h
  {
  }
}

/** Where the gift boxes go (`src/components/Experience.jsx`): a string-seeded
    32-bit generator per dapp, a retry loop that asks the terrain for the
    ground height under up to twelve random points, and the map from dapp id
    to planar position that the discovery store receives. */
module Placement {
  import opened Common
  import opened Strings
  import opened Word32
  import DappCards
  import DiscoveryStore

  // ---------------------------------------------------------------------
  // createDeterministicRandom

  /** One turn of the seeding loop over a UTF-16 code unit. */
  function HashStep(h: nat, unit: nat): (r: nat)
    requires h < Modulus && unit < 0x1_0000
    ensures r < Modulus
  {
    Pow2Values();
    XorBound(h, unit, 32);
    Rotl13(Imul(Xor(h, unit), 3432918353))
  }

  /** The seeding loop over a sequence of code units. */
  function HashUnits(h: nat, units: seq<nat>): (r: nat)
    requires h < Modulus
    requires forall k :: 0 <= k < |units| ==> units[k] < 0x1_0000
    ensures r < Modulus
  {
    if units == [] then h else HashStep(HashUnits(h, units[..|units| - 1]), units[|units| - 1])
  }

  /** `1779033703 ^ seed.length`, with the length taken to 32 bits. */
  function HashStart(length: nat): (r: nat)
    ensures r < Modulus
  {
    Pow2Values();
    XorBound(1779033703, length % Modulus, 32);
    Xor(1779033703, length % Modulus)
  }

  /** The state the generator starts from. */
  function SeedHash(seed: string): (r: nat)
    ensures r < Modulus
  {
    var units := CodeUnits(seed);
    HashUnits(HashStart(|units|), units)
  }

  /** The state update of one draw: two multiply/xor-shift rounds and a
      final `h ^= h >>> 16`. */
  function Mix(h: nat): (r: nat)
    requires h < Modulus
    ensures r < Modulus
  {
    XorShift16(Imul(XorShift13(Imul(XorShift16(h), 2246822507)), 3266489909))
  }

  /** `(h >>> 0) / 4294967296`: the state read as a fraction in [0, 1) with
      32 bits of precision. */
  function Fraction(h: nat): (r: real)
    requires h < Modulus
    ensures 0.0 <= r < 1.0
    ensures r * 4294967296.0 == h as real
  {
    h as real / 4294967296.0
  }

  /** `Mix` run backwards, with the inverses of the two odd constants
      modulo 2^32. */
  function UnMix(h: nat): (r: nat)
    requires h < Modulus
    ensures r < Modulus
  {
    XorShift16(Imul(UnXorShift13(Imul(XorShift16(h), 2127672349)), 2781581891))
  }

  /** Every draw can be undone, so two different states never lead to the
      same next state: the generator does not collapse. */
  lemma MixInverse(h: nat)
    requires h < Modulus
    ensures UnMix(Mix(h)) == h
  {
    var a := XorShift16(h);
    var b := Imul(a, 2246822507);
    var c := XorShift13(b);
    var d := Imul(c, 3266489909);
    assert Mix(h) == XorShift16(d);
    XorShift16Involution(d);
    ImulInverse(c, 3266489909, 2127672349, 1618177690);
    assert Imul(XorShift16(Mix(h)), 2127672349) == c;
    XorShift13Inverse(b);
    assert UnXorShift13(c) == b;
    ImulInverse(a, 2246822507, 2781581891, 1455126516);
    assert Imul(b, 2781581891) == a;
    XorShift16Involution(h);
  }

  lemma MixInjective(h1: nat, h2: nat)
    requires h1 < Modulus && h2 < Modulus
    requires Mix(h1) == Mix(h2)
    ensures h1 == h2
  {
    MixInverse(h1);
    MixInverse(h2);
  }

  /** The state after `n` draws. */
  function StateAfter(seed: string, n: nat): (r: nat)
    ensures r < Modulus
  {
    if n == 0 then SeedHash(seed) else Mix(StateAfter(seed, n - 1))
  }

  /** The first `n` numbers the generator for `seed` returns. */
  function Draws(seed: string, n: nat): (r: seq<real>)
    ensures |r| == n
  {
    seq(n, i requires 0 <= i < n => Fraction(StateAfter(seed, i + 1)))
  }

  /** One more draw appends the fraction of the next state. */
  lemma DrawsNext(seed: string, n: nat)
    ensures Draws(seed, n + 1) == Draws(seed, n) + [Fraction(StateAfter(seed, n + 1))]
  {
  }

  /** Draw `i` is the fraction of the state one step after `i` draws. */
  lemma DrawAt(seed: string, n: nat, i: nat)
    requires i < n
    ensures StateAfter(seed, i + 1) == Mix(StateAfter(seed, i))
    ensures Draws(seed, n)[i] == Fraction(Mix(StateAfter(seed, i)))
  {
  }

  /** A longer run starts with every shorter one. */
  lemma DrawsPrefix(seed: string, n: nat, m: nat)
    requires n <= m
    ensures Draws(seed, n) == Draws(seed, m)[..n]
    ensures forall i :: 0 <= i < n ==> 0.0 <= Draws(seed, n)[i] < 1.0
  {
  }

  /** The closure `createDeterministicRandom(seed)` returns, with its
      captured `h`. */
  class Rng {
    var h: nat

    /** Seed from the code units of `seed`. */
    constructor (seed: string)
      ensures h == SeedHash(seed)
    {
      var units := CodeUnits(seed);
      var x := HashStart(|units|);
      var i := 0;
      while i < |units|
        invariant 0 <= i <= |units|
        invariant x == HashUnits(HashStart(|units|), units[..i])
      {
        assert units[..i + 1][..i] == units[..i];
        x := HashStep(x, units[i]);
        i := i + 1;
      }
      assert units[..i] == units;
      h := x;
    }

    /** `rng()` */
    method Next() returns (r: real)
      requires h < Modulus
      modifies this
      ensures h == Mix(old(h))
      ensures r == Fraction(h) && 0.0 <= r < 1.0
    {
      h := Mix(h);
      r := Fraction(h);
    }
  }

  /** Two generators built from the same seed and called alternately give
      the same numbers: each owns its state and the numbers depend on the
      seed alone. */
  method SameSeedSameDraws(seed: string, n: nat) returns (a: seq<real>, b: seq<real>)
    ensures a == b == Draws(seed, n)
  {
    var first := new Rng(seed);
    var second := new Rng(seed);
    a, b := [], [];
    var i := 0;
    while i < n
      invariant 0 <= i <= n
      invariant first.h == second.h == StateAfter(seed, i)
      invariant a == b == Draws(seed, i)
    {
      var x := first.Next();
      var y := second.Next();
      DrawsNext(seed, i);
      a, b := a + [x], b + [y];
      i := i + 1;
    }
  }

  // ---------------------------------------------------------------------
  // giftBoxPositions

  datatype Position = Position(x: real, y: real, z: real)

  /** `[0, 4, 0]` */
  const DefaultPosition: Position := Position(0.0, 4.0, 0.0)
  const MaxAttempts: nat := 12
  /** A box floats this far above the ground. */
  const Lift: real := 0.95

  /** The ground height under a point, when the terrain has one
      (`terrainInfo.getHeightAt`; `null` is `None`). */
  type Sampler = (real, real) -> Option<real>

  /** The point an attempt aims at, from its two draws: the source turns the
      first into an angle and the square root of the second into a radius
      inside the usable disc, then takes cosine and sine. */
  type Aim = (real, real) -> (real, real)

  /** What one attempt finds from its two draws: it aims at a point and
      asks the terrain for the ground there. */
  function AttemptWith(u: real, v: real, aim: Aim, sampler: Sampler): Option<Position> {
    var point := aim(u, v);
    match sampler(point.0, point.1)
    case None => None
    case Some(ground) => Some(Position(point.0, ground + Lift, point.1))
  }

  /** A successful attempt puts the box `Lift` above the ground the terrain
      reports under it, at the point the draws aim at. */
  lemma AttemptWithSpec(u: real, v: real, aim: Aim, sampler: Sampler)
    ensures var found := AttemptWith(u, v, aim, sampler);
      && (found.Some? <==> sampler(aim(u, v).0, aim(u, v).1).Some?)
      && (found.Some? ==>
            (found.value.x, found.value.z) == aim(u, v) && sampler(found.value.x, found.value.z) == Some(found.value.y - Lift))
  {
  }

  /** What one attempt finds when the generator is in state `h`. */
  function AttemptFrom(h: nat, aim: Aim, sampler: Sampler): Option<Position>
    requires h < Modulus
  {
    AttemptWith(Fraction(Mix(h)), Fraction(Mix(Mix(h))), aim, sampler)
  }

  /** Attempt `k` starts after `2k` draws and uses draws `2k` and `2k + 1`. */
  lemma AttemptDraws(seed: string, k: nat)
    requires k < MaxAttempts
    ensures var draws := Draws(seed, 2 * MaxAttempts);
      var h := StateAfter(seed, 2 * k);
      Fraction(Mix(h)) == draws[2 * k] && Fraction(Mix(Mix(h))) == draws[2 * k + 1]
  {
    DrawAt(seed, 2 * MaxAttempts, 2 * k);
    DrawAt(seed, 2 * MaxAttempts, 2 * k + 1);
  }

  /** The retry loop from attempt `k` on. */
  function PlaceFrom(seed: string, k: nat, aim: Aim, sampler: Sampler): Position
    requires k <= MaxAttempts
    decreases MaxAttempts - k
  {
    if k == MaxAttempts then DefaultPosition
    else match AttemptFrom(StateAfter(seed, 2 * k), aim, sampler)
      case Some(p) => p
      case None => PlaceFrom(seed, k + 1, aim, sampler)
  }

  /** Where the box of the generator seeded with `seed` goes. */
  function PlacementOf(seed: string, aim: Aim, sampler: Sampler): Position {
    PlaceFrom(seed, 0, aim, sampler)
  }

  /** How the retry loop moves from attempt `k` to the next. */
  lemma PlaceFromStep(seed: string, k: nat, aim: Aim, sampler: Sampler)
    requires k < MaxAttempts
    ensures StateAfter(seed, 2 * (k + 1)) == Mix(Mix(StateAfter(seed, 2 * k)))
    ensures var found := AttemptFrom(StateAfter(seed, 2 * k), aim, sampler);
      PlaceFrom(seed, k, aim, sampler) == if found.Some? then found.value else PlaceFrom(seed, k + 1, aim, sampler)
  {
  }

  /** The first attempt that finds ground decides, and the box sits
      `Lift` above that ground. */
  lemma {:induction false} FirstHitWins(seed: string, k: nat, j: nat, aim: Aim, sampler: Sampler)
    requires k <= j < MaxAttempts
    requires forall i :: k <= i < j ==> AttemptFrom(StateAfter(seed, 2 * i), aim, sampler).None?
    requires AttemptFrom(StateAfter(seed, 2 * j), aim, sampler).Some?
    ensures PlaceFrom(seed, k, aim, sampler) == AttemptFrom(StateAfter(seed, 2 * j), aim, sampler).value
    decreases j - k
  {
    PlaceFromStep(seed, k, aim, sampler);
    if k < j {
      FirstHitWins(seed, k + 1, j, aim, sampler);
    }
  }

  /** When all twelve attempts miss, the box stays at `[0, 4, 0]`. */
  lemma {:induction false} AllMissDefault(seed: string, k: nat, aim: Aim, sampler: Sampler)
    requires k <= MaxAttempts
    requires forall i :: k <= i < MaxAttempts ==> AttemptFrom(StateAfter(seed, 2 * i), aim, sampler).None?
    ensures PlaceFrom(seed, k, aim, sampler) == DefaultPosition
    decreases MaxAttempts - k
  {
    if k < MaxAttempts {
      PlaceFromStep(seed, k, aim, sampler);
      AllMissDefault(seed, k + 1, aim, sampler);
    }
  }

  /** One pass of the attempt loop's body: two draws, the aim and the
      sampler. */
  method Attempt(rng: Rng, aim: Aim, sampler: Sampler) returns (found: Option<Position>)
    requires rng.h < Modulus
    modifies rng
    ensures rng.h == Mix(Mix(old(rng.h)))
    ensures found == AttemptFrom(old(rng.h), aim, sampler)
  {
    var u := rng.Next();
    var v := rng.Next();
    var point := aim(u, v);
    var ground := sampler(point.0, point.1);
    if ground.Some? {
      found := Some(Position(point.0, ground.value + Lift, point.1));
    } else {
      found := None;
    }
    assert found == AttemptWith(u, v, aim, sampler);
  }

  /** One dapp's box: up to twelve attempts, stopping at the first point
      with ground under it. */
  method PlaceBox(seed: string, aim: Aim, sampler: Sampler) returns (position: Position)
    ensures position == PlacementOf(seed, aim, sampler)
  {
    var rng := new Rng(seed);
    position := DefaultPosition;
    var attempt := 0;
    while attempt < MaxAttempts
      invariant 0 <= attempt <= MaxAttempts
      invariant rng.h == StateAfter(seed, 2 * attempt)
      invariant PlaceFrom(seed, 0, aim, sampler) == PlaceFrom(seed, attempt, aim, sampler)
      invariant position == DefaultPosition
    {
      var found := Attempt(rng, aim, sampler);
      PlaceFromStep(seed, attempt, aim, sampler);
      if found.Some? {
        position := found.value;
        break;
      }
      attempt := attempt + 1;
    }
  }

  /** `${dapp.id}-${index}` */
  function SeedFor(id: string, index: nat): string {
    id + "-" + NatToString(index)
  }

  datatype Placed = Placed(dapp: DappCards.Card, position: Position)

  /** The `giftBoxPositions` memo: nothing before the terrain offers a
      sampler, then one box per dapp, in order, each placed by its own
      generator. */
  method GiftBoxPositions(dapps: seq<DappCards.Card>, aim: Aim, sampler: Option<Sampler>)
    returns (placements: seq<Placed>)
    ensures sampler.None? ==> placements == []
    ensures sampler.Some? ==> |placements| == |dapps|
    ensures sampler.Some? ==> forall i :: 0 <= i < |dapps| ==>
      placements[i] == Placed(dapps[i], PlacementOf(SeedFor(dapps[i].id, i), aim, sampler.value))
  {
    placements := [];
    if sampler.None? {
      return;
    }
    var i := 0;
    while i < |dapps|
      invariant 0 <= i <= |dapps|
      invariant |placements| == i
      invariant forall k :: 0 <= k < i ==>
        placements[k] == Placed(dapps[k], PlacementOf(SeedFor(dapps[k].id, k), aim, sampler.value))
    {
      var position := PlaceBox(SeedFor(dapps[i].id, i), aim, sampler.value);
      placements := placements + [Placed(dapps[i], position)];
      i := i + 1;
    }
  }

  // ---------------------------------------------------------------------
  // placementMap

  /** `placementMap[dapp.id] = { x, z }` over the placements, later ids
      overwriting earlier ones. */
  function PlacementMapOf(placements: seq<Placed>): map<string, DiscoveryStore.PlanarPoint> {
    if placements == [] then map[]
    else
      var last := placements[|placements| - 1];
      PlacementMapOf(placements[..|placements| - 1])[last.dapp.id := DiscoveryStore.PlanarPoint(last.position.x, last.position.z)]
  }

  /** Exactly the placed ids are keys. */
  lemma {:induction false} PlacementMapKeys(placements: seq<Placed>)
    ensures forall id :: id in PlacementMapOf(placements) <==> exists i :: 0 <= i < |placements| && placements[i].dapp.id == id
  {
    if placements != [] {
      var init := placements[..|placements| - 1];
      PlacementMapKeys(init);
      forall id ensures id in PlacementMapOf(placements) <==> exists i :: 0 <= i < |placements| && placements[i].dapp.id == id {
        if id in PlacementMapOf(init) {
          var i :| 0 <= i < |init| && init[i].dapp.id == id;
          assert placements[i] == init[i];
        }
        if exists i :: 0 <= i < |placements| && placements[i].dapp.id == id {
          var i :| 0 <= i < |placements| && placements[i].dapp.id == id;
          if i < |init| {
            assert init[i] == placements[i];
          }
        }
      }
    }
  }

  /** The entry of an id is the position of its last placement. */
  lemma {:induction false} PlacementMapLastWins(placements: seq<Placed>, j: nat)
    requires j < |placements|
    requires forall i :: j < i < |placements| ==> placements[i].dapp.id != placements[j].dapp.id
    ensures placements[j].dapp.id in PlacementMapOf(placements)
    ensures PlacementMapOf(placements)[placements[j].dapp.id]
      == DiscoveryStore.PlanarPoint(placements[j].position.x, placements[j].position.z)
  {
    if j < |placements| - 1 {
      var init := placements[..|placements| - 1];
      assert init[j] == placements[j];
      PlacementMapLastWins(init, j);
    }
  }

  /** The effect that hands the placements to the store: it does nothing
      while there are none, and otherwise sets the map built by the
      `forEach`. */
  method PublishPlacements(placements: seq<Placed>, store: DiscoveryStore.Store)
    requires store.Valid()
    modifies store`dappPlacements
    ensures store.Valid()
    ensures placements == [] ==> store.dappPlacements == old(store.dappPlacements)
    ensures placements != [] ==> store.dappPlacements == PlacementMapOf(placements)
  {
    if |placements| == 0 {
      return;
    }
    var placementMap := map[];
    var i := 0;
    while i < |placements|
      invariant 0 <= i <= |placements|
      invariant placementMap == PlacementMapOf(placements[..i])
    {
      assert placements[..i + 1][..i] == placements[..i];
      var p := placements[i];
      placementMap := placementMap[p.dapp.id := DiscoveryStore.PlanarPoint(p.position.x, p.position.z)];
      i := i + 1;
    }
    assert placements[..i] == placements;
    store.SetDappPlacements(placementMap);
  }
}
