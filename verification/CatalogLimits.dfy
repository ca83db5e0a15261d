/** Catalogs for which gencat finds no plane: all products of set and message
    numbers vanish in 32 bits, so that every size puts all messages in one
    column (catgets/gencat.c:879-951). */
module CatalogLimits {
  import opened Basics
  import opened CatalogLists
  import opened CatalogPlane
  import opened CatalogTable

  /** Messages 65536, 131072, ... in a set with a number of the same kind. */
  function CollidingSet(x: nat, n: nat): MessageSet {
    MessageSet(0x1_0000 * x, seq(n, y => Message(0x1_0000 * (y + 1), [], None)), 0x1_0000 * n)
  }

  /** One such set for each length. */
  function Colliding(lengths: seq<nat>): (sets: seq<MessageSet>)
    ensures |sets| == |lengths|
  {
    seq(|lengths|, x requires 0 <= x < |lengths| => CollidingSet(x + 1, lengths[x]))
  }

  function Sum(lengths: seq<nat>): nat {
    if |lengths| == 0 then 0 else Sum(lengths[..|lengths| - 1]) + lengths[|lengths| - 1]
  }

  /** Every number is an int. */
  predicate IntNumbers(lengths: seq<nat>) {
    |lengths| < 0x8000 && forall x :: 0 <= x < |lengths| ==> lengths[x] < 0x8000
  }

  lemma NoProduct(x: nat, y: nat)
    ensures Product(0x1_0000 * y, 0x1_0000 * x) == 0
  {
    assert (0x1_0000 * y) * (0x1_0000 * x) == 0x1_0000_0000 * (x * y);
  }

  /** Numbers are ints, and no product is left of any two. */
  predicate Collide(es: seq<Entry>) {
    forall i :: 0 <= i < |es| ==> EntryOk(es[i]) && Product(es[i].number, es[i].set_) == 0
  }

  lemma CollidingOne(x: nat, n: nat)
    requires 0 < x < 0x8000 && n < 0x8000
    ensures Collide(EntriesOf(CollidingSet(x, n)))
  {
    hide Product;
    var es := EntriesOf(CollidingSet(x, n));
    forall j | 0 <= j < |es| ensures EntryOk(es[j]) && Product(es[j].number, es[j].set_) == 0 { NoProduct(x, j + 1); }
  }

  lemma {:induction false} CollidingEntries(lengths: seq<nat>)
    requires IntNumbers(lengths)
    ensures |Entries(Colliding(lengths))| == Sum(lengths) && Collide(Entries(Colliding(lengths)))
    ensures EntriesOk(Entries(Colliding(lengths)))
  {
    hide Product, EntryOk;
    if |lengths| > 0 {
      var init, n := lengths[..|lengths| - 1], |lengths| - 1;
      CollidingEntries(init);
      CollidingOne(n + 1, lengths[n]);
      assert Colliding(lengths)[..n] == Colliding(init);
    }
  }

  lemma CollidingLists(lengths: seq<nat>)
    ensures SetsOk(Colliding(lengths))
  {
  }

  /** Too many colliding messages have no plane: the second of them has no slot
      in the table of one slot. */
  lemma NoPlane(lengths: seq<nat>)
    requires IntNumbers(lengths) && Sum(lengths) > 1 && (1 + Sum(lengths) / 5) * Sum(lengths) > UINT_MAX
    ensures !HasPlane(Entries(Colliding(lengths)), Sum(lengths))
    ensures Count(Entries(Colliding(lengths))[..1], 1, Column(Entries(Colliding(lengths))[1], 1)) >= 1
  {
    hide Depth, Product, Count, Entries, Colliding, EntryOk;
    var es, n := Entries(Colliding(lengths)), Sum(lengths);
    CollidingEntries(lengths);
    forall s | s >= 1 + n / 5 ensures s * Depth(es, s) > UINT_MAX {
      OneColumn(es, s, 0);
      MulMonotone(1 + n / 5, s, n);
    }
    OneColumn(es[..1], 1, 0);
  }

  /** Five sets of 32767 messages: 163835 messages, and nowhere to put them. */
  lemma FullSets()
    ensures var lengths := [32767, 32767, 32767, 32767, 32767];
      && SetsOk(Colliding(lengths)) && EntriesOk(Entries(Colliding(lengths)))
      && |Entries(Colliding(lengths))| == 163835 && !HasPlane(Entries(Colliding(lengths)), 163835)
  {
    hide Entries, Colliding, EntriesOk, SetsOk, HasPlane, Collide;
    var lengths := [32767, 32767, 32767, 32767, 32767];
    SumFive(32767, 32767, 32767, 32767, 32767);
    CollidingEntries(lengths);
    CollidingLists(lengths);
    NoPlane(lengths);
  }

  /** One message more than always fits does not always fit. */
  lemma OneTooMany()
    ensures var lengths := [32767, 32767, 32767, 32767, 15473];
      && SetsOk(Colliding(lengths)) && EntriesOk(Entries(Colliding(lengths)))
      && |Entries(Colliding(lengths))| == ALWAYS_FITS + 1 && !HasPlane(Entries(Colliding(lengths)), ALWAYS_FITS + 1)
  {
    hide Entries, Colliding, EntriesOk, SetsOk, HasPlane, Collide;
    var lengths := [32767, 32767, 32767, 32767, 15473];
    SumFive(32767, 32767, 32767, 32767, 15473);
    CollidingEntries(lengths);
    CollidingLists(lengths);
    NoPlane(lengths);
  }

  lemma SumFive(a: nat, b: nat, c: nat, d: nat, e: nat)
    ensures Sum([a, b, c, d, e]) == a + b + c + d + e
  {
    assert [a][..0] == [] && Sum([a]) == a;
    assert [a, b][..1] == [a] && Sum([a, b]) == a + b;
    assert [a, b, c][..2] == [a, b] && Sum([a, b, c]) == a + b + c;
    assert [a, b, c, d][..3] == [a, b, c] && Sum([a, b, c, d]) == a + b + c + d;
    assert [a, b, c, d, e][..4] == [a, b, c, d];
  }
}
