// The keys under which one client cache deduplicates texts, payments and
// acknowledgements, and when they may disturb each other.

module DedupKeys {
  import opened Words
  import opened SeenIds

  datatype Kind = Text | Pay | Ack

  const PAY_MASK: u64 := 0xFFFF_FFFF_0000_0000
  const ACK_MASK: u64 := 0xFFFF_0000_FFFF_0000

  function Mask(kind: Kind): u64 {
    match kind
    case Text => 0
    case Pay => PAY_MASK
    case Ack => ACK_MASK
  }

  function Key(kind: Kind, id: u64): u64 {
    match kind
    case Text => id
    case Pay => Xor64(id, PAY_MASK)
    case Ack => Xor64(id, ACK_MASK)
  }

  lemma KeyIsMasked(kind: Kind, id: u64)
    ensures Key(kind, id) == Xor(id, Mask(kind))
  {
    XorZero(id);
  }

  // Within one kind the key is a bijection on words, its own inverse.
  lemma KeyBijective(kind: Kind, id: u64)
    ensures Key(kind, Key(kind, id)) == id
  {
    XorCancels(id, Mask(kind));
  }

  lemma SameKindInjective(kind: Kind, a: u64, b: u64)
    ensures Key(kind, a) == Key(kind, b) ==> a == b
  {
    KeyBijective(kind, a);
    KeyBijective(kind, b);
  }

  // Keys of any two kinds collide exactly when the ids differ by the masks' difference.
  lemma KeysCollide(kind1: Kind, a: u64, kind2: Kind, b: u64)
    ensures Key(kind1, a) == Key(kind2, b) <==> Xor(a, b) == Xor(Mask(kind1), Mask(kind2))
  {
    KeyIsMasked(kind1, a);
    KeyIsMasked(kind2, b);
    XorSolve(a, Mask(kind1), b, Mask(kind2));
  }

  // What the masks do, in digits: the key of a payment has every bit of the upper half of the id
  // flipped; the key of an acknowledgement every bit of the first and third quarter.
  lemma PayKeyFlips(hi: nat, lo: nat)
    requires hi < 0x1_0000_0000 && lo < 0x1_0000_0000
    ensures Key(Pay, hi * 0x1_0000_0000 + lo) == (0xFFFF_FFFF - hi) * 0x1_0000_0000 + lo
  {
    Pow2s();
    XorSplits(hi, lo, 0xFFFF_FFFF, 0, 32);
    XorOnes(hi, 32);
    XorZero(lo);
  }

  lemma AckKeyFlips(a: nat, b: nat, c: nat, d: nat)
    requires a < 0x1_0000 && b < 0x1_0000 && c < 0x1_0000 && d < 0x1_0000
    ensures Key(Ack, Quarters(a, b, c, d)) == Quarters(0xFFFF - a, b, 0xFFFF - c, d)
  {
    XorFour((a * 0x1_0000 + b) * 0x1_0000 + c, d);
    XorThree(a * 0x1_0000 + b, c);
    XorTwo(a, b);
  }

  lemma XorFour(upper: nat, d: nat)
    requires d < 0x1_0000
    ensures Xor(upper * 0x1_0000 + d, ACK_MASK) == Xor(upper, 0xFFFF_0000_FFFF) * 0x1_0000 + d
  {
    XorQuarter(upper, d, 0xFFFF_0000_FFFF, 0);
    XorZero(d);
  }

  lemma XorTwo(a: nat, b: nat)
    requires a < 0x1_0000 && b < 0x1_0000
    ensures Xor(a * 0x1_0000 + b, 0xFFFF_0000) == (0xFFFF - a) * 0x1_0000 + b
  {
    XorQuarter(a, b, 0xFFFF, 0);
    FlipQuarter(a);
    XorZero(b);
  }

  lemma XorThree(upper: nat, c: nat)
    requires c < 0x1_0000
    ensures Xor(upper * 0x1_0000 + c, 0xFFFF_0000_FFFF) == Xor(upper, 0xFFFF_0000) * 0x1_0000 + (0xFFFF - c)
  {
    XorQuarter(upper, c, 0xFFFF_0000, 0xFFFF);
    FlipQuarter(c);
  }

  lemma XorQuarter(x: nat, d: nat, m: nat, k: nat)
    requires d < 0x1_0000 && k < 0x1_0000
    ensures Xor(x * 0x1_0000 + d, m * 0x1_0000 + k) == Xor(x, m) * 0x1_0000 + Xor(d, k)
  {
    Pow2s();
    XorSplits(x, d, m, k, 16);
  }

  lemma FlipQuarter(a: nat)
    requires a < 0x1_0000
    ensures Xor(a, 0xFFFF) == 0xFFFF - a
  {
    Pow2s();
    XorOnes(a, 16);
  }

  // A word from its four quarters of sixteen bits each.
  function Quarters(a: nat, b: nat, c: nat, d: nat): u64
    requires a < 0x1_0000 && b < 0x1_0000 && c < 0x1_0000 && d < 0x1_0000
  {
    ((a * 0x1_0000 + b) * 0x1_0000 + c) * 0x1_0000 + d
  }

  lemma Pow2s()
    ensures Pow2(16) == 0x1_0000 && Pow2(32) == 0x1_0000_0000
  {
    assert Pow2(8) == 256;
    Pow2Sum(8, 8);
    Pow2Sum(16, 16);
  }

  // The three keys of one id differ: paying oneself does not suppress one's own receipt.
  lemma KindsSeparate(id: u64, kind1: Kind, kind2: Kind)
    ensures Key(kind1, id) == Key(kind2, id) <==> kind1 == kind2
  {
    KeysCollide(kind1, id, kind2, id);
    XorSelf(id);
    if Xor(Mask(kind1), Mask(kind2)) == 0 {
      XorSelf(Mask(kind1));
      XorZero(Mask(kind1));
      XorZero(Mask(kind2));
      XorSolve(Mask(kind1), 0, Mask(kind2), 0);
    }
  }

  // ---------- the shared cache as three filters ----------

  datatype Offer = Offer(kind: Kind, id: u64)

  function OfferKey(o: Offer): u64 {
    Key(o.kind, o.id)
  }

  // No two offers of different kinds whose ids differ by the difference of the masks.
  ghost predicate NoClash(offers: seq<Offer>) {
    forall o, p :: o in offers && p in offers && o.kind != p.kind ==>
                     Xor(o.id, p.id) != Xor(Mask(o.kind), Mask(p.kind))
  }

  // Without clashes the one cache of keys decides every offer by its kind and id alone: it
  // keeps exactly the offers that three separate filters over one shared window would keep.
  lemma SharedCacheIsThreeFilters(offers: seq<Offer>, window: nat)
    requires NoClash(offers)
    ensures Accepted(Image(OfferKey, offers), window) == Image(OfferKey, Accepted(offers, window))
  {
    forall o, p | o in offers && p in offers && OfferKey(o) == OfferKey(p)
      ensures o == p
    {
      KeysCollide(o.kind, o.id, p.kind, p.id);
      SameKindInjective(o.kind, o.id, p.id);
    }
    FilterByKey(OfferKey, offers, window);
  }
}
