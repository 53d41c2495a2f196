/**
 Reference counts. Counts up to 2 are kept, together with the age of the block, in four bits of its
 first side data byte; larger counts are kept in an overflow table.
 */
module Refcounts {
  import SideData

  // codes: reference count and age
  const R0_A0 := 0x0
  const R0_A1 := 0x1
  const R0_A2 := 0x2
  const R0_A3 := 0x3
  const R1_A0 := 0x4
  const R1_A1 := 0x5
  const R1_A2 := 0x6
  const R1_A3 := 0x7
  const R2_A0 := 0x8
  const R2_A1 := 0x9
  const R2_A2 := 0xa
  const R2_A3 := 0xb
  const R0_A4 := 0xc
  const R0_A5 := SideData.R0_A5
  const R1_A4 := 0xe
  const R1_A5 := SideData.R1_A5
  const UNUSED := 0xff

  const AGE_MAP := [0, 1, 2, 3, 0, 1, 2, 3, 0, 1, 2, 3, 4, 5, 4, 5]
  const REF_MAP := [0, 0, 0, 0, 1, 1, 1, 1, 2, 2, 2, 2, 0, 0, 1, 1]
  const NEXT_AGE_MAP :=
    [R0_A0, R0_A0, R0_A1, R0_A2, R1_A0, R1_A0, R1_A1, R1_A2, R2_A0, R2_A0, R2_A1, R2_A2, R0_A3, R0_A4, R1_A3, R1_A4]
  const INCR_REFCOUNT_MAP :=
    [R1_A0, R1_A1, R1_A2, R1_A3, R2_A0, R2_A1, R2_A2, R2_A3, UNUSED, UNUSED, UNUSED, UNUSED, R1_A4, R1_A5, R2_A3, R2_A3]
  const DECR_REFCOUNT_MAP :=
    [UNUSED, UNUSED, UNUSED, UNUSED, R0_A0, R0_A1, R0_A2, R0_A3,
     R1_A0, R1_A1, R1_A2, R1_A5, UNUSED, UNUSED, R0_A4, R0_A5]

  type Code = c: int | 0 <= c < 16

  predicate IsYoungest(c: Code) {
    c % 2 == 1 && (c / 8) % 2 == 1 && ((c / 2) % 2 == 1 || (c / 4) % 2 == 1)
  }

  predicate IsEldest(c: Code) {
    c % 4 == 0 && c / 4 != 3
  }

  /** The two-operation tests find the blocks of age 0, and the newest blocks of each count. */
  lemma AgeTests(c: Code)
    ensures IsEldest(c) <==> AGE_MAP[c] == 0
    ensures IsYoungest(c) <==> AGE_MAP[c] == if REF_MAP[c] == 2 then 3 else 5
  {}

  /** The age of a block when its count goes up from count: a count of 2 has no code for the ages above 3. */
  function RaisedAge(count: int, age: int): (a: int) {
    if count == 1 && age > 3 then 3 else age
  }

  /** The age of a block when its count goes down from count: age 3 with a count of 2 is taken for the newest. */
  function LoweredAge(count: int, age: int): (a: int) {
    if count == 2 && age == 3 then 5 else age
  }

  /** The tables change the count by one, never produce an unused code, and keep the age where the new
      count has a code for it; a new block stays new and an old one old. */
  lemma IncrTable(c: Code)
    requires REF_MAP[c] < 2
    ensures 0 <= INCR_REFCOUNT_MAP[c] < 16 && REF_MAP[INCR_REFCOUNT_MAP[c]] == REF_MAP[c] + 1
    ensures AGE_MAP[INCR_REFCOUNT_MAP[c]] == RaisedAge(REF_MAP[c], AGE_MAP[c])
    ensures AGE_MAP[INCR_REFCOUNT_MAP[c]] == 0 <==> AGE_MAP[c] == 0
  {}

  lemma DecrTable(c: Code)
    requires REF_MAP[c] > 0
    ensures 0 <= DECR_REFCOUNT_MAP[c] < 16 && REF_MAP[DECR_REFCOUNT_MAP[c]] == REF_MAP[c] - 1
    ensures AGE_MAP[DECR_REFCOUNT_MAP[c]] == LoweredAge(REF_MAP[c], AGE_MAP[c])
    ensures AGE_MAP[DECR_REFCOUNT_MAP[c]] == 0 <==> AGE_MAP[c] == 0
  {}

  lemma NextAgeTable(c: Code)
    ensures 0 <= NEXT_AGE_MAP[c] < 16 && REF_MAP[NEXT_AGE_MAP[c]] == REF_MAP[c]
    ensures AGE_MAP[NEXT_AGE_MAP[c]] == if AGE_MAP[c] == 0 then 0 else AGE_MAP[c] - 1
  {}

  datatype Op = Retain(block: nat) | Release(block: nat) | Mature(block: nat)

  function Change(op: Op, b: nat): (n: int) {
    if op.block != b || op.Mature? then 0 else if op.Retain? then 1 else -1
  }

  /** What a sequence of operations does to the count of a block: its retains less its releases. */
  ghost function Net(ops: seq<Op>, b: nat): (n: int) {
    if ops == [] then 0 else Net(ops[..|ops|-1], b) + Change(ops[|ops|-1], b)
  }

  /** A byte is its upper two bits, a code, and its lower two bits. */
  lemma Parts(h: int, c: Code, l: int)
    requires 0 <= h < 4 && 0 <= l < 4
    ensures
      var d := 64 * h + 4 * c + l;
      0 <= d < 256 && d / 4 == 16 * h + c && SideData.AgeRef(d) == c && d % 4 == l && d / 64 == h
  {
    var d := 64 * h + 4 * c + l;
    assert d / 4 == 16 * h + c;
    assert (16 * h + c) % 16 == c;
  }

  lemma Split(d: int) returns (h: int, c: Code, l: int)
    requires 0 <= d < 256
    ensures 0 <= h < 4 && 0 <= l < 4 && d == 64 * h + 4 * c + l && c == SideData.AgeRef(d)
  {
    h, c, l := d / 64, (d / 4) % 16, d % 4;
  }

  class Table {
    var side: map<nat, int>     // the first side data byte of each block
    var retains: map<nat, int>  // counts above 2
    var needsEnlivening: bool
    var marked: set<nat>
    var queue: seq<nat>         // the enlivening queue

    ghost predicate Valid()
      reads this`side, this`retains
    {
      && (forall b | b in side :: 0 <= side[b] < 256)
      && (forall b | b in retains :: b in side && REF_MAP[CodeOf(b)] == 2 && retains[b] >= 3)
    }

    function CodeOf(b: nat): (c: Code)
      requires b in side
      reads this`side
    {
      SideData.AgeRef(side[b])
    }

    /** The reference count of a block. */
    ghost function Count(b: nat): (n: int)
      requires b in side
      reads this`side, this`retains
    {
      if b in retains then retains[b] else REF_MAP[CodeOf(b)]
    }

    ghost function AgeOf(b: nat): (a: int)
      requires b in side
      reads this`side
    {
      AGE_MAP[CodeOf(b)]
    }

    ghost predicate Old(b: nat)
      requires b in side
      reads this`side
    {
      AgeOf(b) == 0
    }

    /** The overflow table holds exactly the blocks with a count of 3 or more. */
    lemma OverflowIsThreeOrMore(b: nat)
      requires Valid() && b in side
      ensures b in retains <==> Count(b) >= 3
    {
      assert REF_MAP[CodeOf(b)] <= 2;
    }

    /** Replaces the code in a side data byte and nothing else. */
    method SetCode(b: nat, c: Code)
      requires b in side && 0 <= side[b] < 256
      modifies this`side
      ensures b in side && side == old(side)[b := side[b]] && 0 <= side[b] < 256
      ensures CodeOf(b) == c && side[b] % 4 == old(side[b]) % 4 && side[b] / 64 == old(side[b]) / 64
    {
      ghost var h, c0, l := Split(side[b]);
      Parts(h, c0, l);
      Parts(h, c, l);
      hide SideData.AgeRef;
      var data := side[b] - 4 * SideData.AgeRef(side[b]);
      side := side[b := data + 4 * c];
    }

    ghost predicate OthersSame(b: nat, side0: map<nat, int>, retains0: map<nat, int>)
      reads this`side, this`retains
    {
      && side.Keys == side0.Keys
      && forall x | x in side && x != b ::
           && side[x] == side0[x]
           && (x in retains <==> x in retains0) && (x in retains ==> retains[x] == retains0[x])
    }

    method GetRefcount(b: nat) returns (n: int)
      requires Valid() && b in side
      ensures n == Count(b)
    {
      n := REF_MAP[CodeOf(b)];
      if n == 2 {
        if b in retains {
          n := retains[b];
        }
      }
    }

    /** Adds one to the count of a block. Below 2 it returns the count before. */
    method IncRefcount(b: nat) returns (refcount: int)
      requires Valid() && b in side
      modifies this`side, this`retains
      ensures Valid() && OthersSame(b, old(side), old(retains)) && b in side
      ensures Count(b) == old(Count(b)) + 1 && (Old(b) <==> old(Old(b)))
      ensures AgeOf(b) == RaisedAge(old(Count(b)), old(AgeOf(b)))
      ensures refcount == if old(Count(b)) >= 2 then Count(b) else Count(b) - 1
    {
      refcount := REF_MAP[CodeOf(b)];
      if refcount == 2 {
        if b in retains {
          retains := retains[b := retains[b] + 1];
          refcount := retains[b];
        } else {
          retains := retains[b := 3];
          refcount := 3;
        }
      } else {
        assert REF_MAP[CodeOf(b)] < 2;
        IncrTable(CodeOf(b));
        SetCode(b, INCR_REFCOUNT_MAP[CodeOf(b)]);
      }
    }

    /** Takes one from the count of a block and returns the new count; without a count it returns -1. */
    method DecRefcount(b: nat) returns (refcount: int)
      requires Valid() && b in side
      modifies this`side, this`retains
      ensures Valid() && OthersSame(b, old(side), old(retains)) && b in side
      ensures old(Count(b)) > 0 ==> Count(b) == old(Count(b)) - 1 && refcount == Count(b)
      ensures old(Count(b)) == 0 ==> refcount == -1 && side == old(side) && retains == old(retains)
      ensures AgeOf(b) == LoweredAge(old(Count(b)), old(AgeOf(b))) && (Old(b) <==> old(Old(b)))
    {
      refcount := REF_MAP[CodeOf(b)];
      if refcount == 2 {
        if b in retains {
          retains := retains[b := retains[b] - 1];
          if retains[b] == 2 {
            retains := retains - {b};
            return 2;
          }
          return retains[b];
        }
        DecrTable(CodeOf(b));
        SetCode(b, DECR_REFCOUNT_MAP[CodeOf(b)]);
        return 1;
      } else if refcount == 1 {
        DecrTable(CodeOf(b));
        SetCode(b, DECR_REFCOUNT_MAP[CodeOf(b)]);
        return 0;
      }
      assert REF_MAP[CodeOf(b)] == 0;
      return -1;
    }

    /** Brings a block one step nearer to old age. */
    method Age(b: nat)
      requires Valid() && b in side
      modifies this`side
      ensures Valid() && OthersSame(b, old(side), old(retains)) && b in side && Count(b) == old(Count(b))
      ensures AgeOf(b) == if old(Old(b)) then 0 else old(AgeOf(b)) - 1
    {
      NextAgeTable(CodeOf(b));
      SetCode(b, NEXT_AGE_MAP[CodeOf(b)]);
    }

    /** Retains a block. While a collection runs, the block is meant to be enlivened when its count
        goes from 0 to 1; since IncRefcount returns the count before, that happens from 1 to 2. */
    method BlockIncrementRefcount(b: nat) returns (refcount: int)
      requires Valid() && b in side
      modifies this`side, this`retains, this`queue
      ensures Valid() && OthersSame(b, old(side), old(retains)) && b in side
      ensures Count(b) == old(Count(b)) + 1 && (Old(b) <==> old(Old(b)))
      ensures AgeOf(b) == RaisedAge(old(Count(b)), old(AgeOf(b)))
      ensures queue == if needsEnlivening && b !in marked && old(Count(b)) == 1 then old(queue) + [b] else old(queue)
    {
      refcount := IncRefcount(b);
      if refcount == 1 {
        if needsEnlivening && b !in marked {
          queue := queue + [b];
        }
      }
    }

    method Step(op: Op) returns (underflow: bool)
      requires Valid() && op.block in side
      modifies this`side, this`retains, this`queue
      ensures Valid() && side.Keys == old(side.Keys)
      ensures underflow <==> op.Release? && old(Count(op.block)) == 0
      ensures !underflow ==> forall b | b in side :: Count(b) == old(Count(b)) + Change(op, b)
      ensures forall b | b in side :: old(Old(b)) ==> Old(b)
    {
      underflow := false;
      match op {
        case Retain(b) =>
          var _ := BlockIncrementRefcount(b);
        case Release(b) =>
          var n := DecRefcount(b);
          underflow := n == -1;
        case Mature(b) =>
          Age(b);
      }
    }

    /** Any sequence of operations that does not underflow: the count of every block is what it was,
        plus its retains, less its releases. An old block stays old. */
    method Perform(ops: seq<Op>) returns (underflow: bool)
      requires Valid() && forall op | op in ops :: op.block in side
      modifies this`side, this`retains, this`queue
      ensures Valid() && side.Keys == old(side.Keys)
      ensures !underflow ==> forall b | b in side :: Count(b) == old(Count(b)) + Net(ops, b)
      ensures underflow ==> exists k :: 0 <= k < |ops| && Underflows(old(Counts()), ops, k)
      ensures forall b | b in side :: old(Old(b)) ==> Old(b)
    {
      ghost var counts0 := Counts();
      var i := 0;
      hide Valid, Count, Old;
      while i < |ops|
        invariant 0 <= i <= |ops| && Valid() && side.Keys == old(side.Keys) && counts0.Keys == side.Keys
        invariant forall b | b in side :: Count(b) == counts0[b] + Net(ops[..i], b)
        invariant forall b | b in side :: old(Old(b)) ==> Old(b)
      {
        assert ops[..i + 1][..i] == ops[..i] && ops[i] in ops;
        underflow := Step(ops[i]);
        if underflow {
          assert Underflows(counts0, ops, i);
          return;
        }
        i := i + 1;
      }
      assert ops[..i] == ops;
      return false;
    }

    ghost function Counts(): (m: map<nat, int>)
      reads this`side, this`retains
      ensures m.Keys == side.Keys && forall b | b in side :: m[b] == Count(b)
    {
      map b | b in side :: Count(b)
    }
  }

  /** The k-th operation releases a block whose count is 0 by then. */
  ghost predicate Underflows(counts: map<nat, int>, ops: seq<Op>, k: int)
    requires 0 <= k < |ops|
  {
    ops[k].Release? && ops[k].block in counts && counts[ops[k].block] + Net(ops[..k], ops[k].block) == 0
  }
}
