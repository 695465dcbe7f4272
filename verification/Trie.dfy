/** The compressed trie over bit strings (CompressedSequenceSet.cpp:58-289): it agrees with a map from bit strings
    to payloads. */
module Trie {

  datatype Option<T> = None | Some(item: T)

  type Bits = seq<bool>

  // ----- words of 64 bits, bit 0 first -----

  ghost predicate Words(s: seq<Bits>) {
    forall i :: 0 <= i < |s| ==> |s[i]| == 64
  }

  /** bitmask_ignore_first applied to w: the first n bits are cleared. */
  function IgnoreFirst(w: Bits, n: nat): (r: Bits)
    requires |w| == 64
    ensures |r| == 64 && forall j :: 0 <= j < 64 ==> r[j] == (n <= j && w[j])
  {
    seq(64, j requires 0 <= j < 64 => n <= j && w[j])
  }

  /** bitmask_ignore_last applied to w: the last n bits are cleared. */
  function IgnoreLast(w: Bits, n: nat): (r: Bits)
    requires |w| == 64
    ensures |r| == 64 && forall j :: 0 <= j < 64 ==> r[j] == (j < 64 - n && w[j])
  {
    seq(64, j requires 0 <= j < 64 => j < 64 - n && w[j])
  }

  /** The bit string stored in words with padding unused bits at the end. */
  ghost function Key(words: seq<Bits>, padding: nat): (k: Bits)
    requires Words(words) && |words| > 0 && padding < 64
    ensures |k| == 64 * |words| - padding
  {
    seq(64 * |words| - padding, k requires 0 <= k < 64 * |words| - padding => words[k / 64][k % 64])
  }

  /** The padding bits are zero (line 154). */
  ghost predicate Padded(words: seq<Bits>, padding: nat) {
    && Words(words) && 0 < |words| < 0x1_0000 && padding < 64
    && words[|words| - 1] == IgnoreLast(words[|words| - 1], padding)
  }

  lemma PaddedWords(words: seq<Bits>, padding: nat)
    requires Padded(words, padding)
    ensures Words(words) && 0 < |words| < 0x1_0000 && padding < 64
    ensures forall i :: 0 <= i < |words| ==> |words[i]| == 64
  {
  }

  lemma KeyBit(words: seq<Bits>, padding: nat, i: nat, j: nat)
    requires Padded(words, padding) && i < |words| && j < 64
    ensures words[i][j] == (64 * i + j < |Key(words, padding)| && Key(words, padding)[64 * i + j])
  {
    if 64 * i + j < |Key(words, padding)| {
      assert (64 * i + j) / 64 == i && (64 * i + j) % 64 == j;
    } else {
      assert i == |words| - 1 && j >= 64 - padding;
    }
  }

  /** value holds the bits lo..hi of full; word 0 is word number first of the whole string; all other bits are 0. */
  ghost predicate Stores(value: seq<Bits>, blocks: nat, first: nat, lo: nat, hi: nat, full: Bits) {
    && Words(value) && blocks <= |value|
    && lo <= hi <= |full|
    && forall i: nat, j: nat :: i < blocks && j < 64 ==> value[i][j] == (lo <= 64 * (first + i) + j < hi && full[64 * (first + i) + j])
  }

  // ----- contents by string -----

  function Lookup(m: map<Bits, nat>, key: Bits): Option<nat> {
    if key in m then Some(m[key]) else None
  }

  lemma ItemsSet(before: Slots, middle: Slots, key: Bits, item: nat)
    requires Grown(before, middle, key) && key in middle
    ensures middle[key] == Lookup(Items(before), key)
    ensures Items(middle) == Items(before)
    ensures Items(middle[key := Some(item)]) == Items(before)[key := item]
  {
  }

  /** The stored items: strings whose slot has been set. */
  ghost function Items(slots: Slots): map<Bits, nat> {
    map x | x in slots && slots[x].Some? :: slots[x].item
  }

  type Slots = map<Bits, Option<nat>>

  /** What one insertion may change: strings keep their payload, new ones have none and are prefixes of the key. */
  ghost predicate Grown(before: Slots, after: Slots, key: Bits) {
    && (forall x :: x in before ==> x in after && after[x] == before[x])
    && (forall x :: x in after && x !in before ==> after[x] == None && x <= key)
  }

  /** The key ends strictly inside the string of a node. */
  ghost predicate Inside(slots: Slots, key: Bits) {
    key !in slots && exists x :: x in slots && key <= x
  }

  ghost predicate Differ(a: Bits, b: Bits, k: nat) {
    k < |a| && k < |b| && a[k] != b[k]
  }

  class CompressedSequenceTrie {
    var payload: Option<nat>
    var value: seq<Bits>
    var blocks: nat
    var myFirstBlock: nat
    var ignoreBitsFirst: nat
    var ignoreBitsLast: nat
    var zero: CompressedSequenceTrie?
    var one: CompressedSequenceTrie?

    /** The string from the root to the end of this node, the nodes below and their strings. */
    ghost var full: Bits
    ghost var nodes: map<Bits, CompressedSequenceTrie>
    ghost var Repr: set<CompressedSequenceTrie>

    ghost function Start(): nat
      reads this
    {
      64 * myFirstBlock + ignoreBitsFirst
    }

    ghost predicate Own()
      reads this
    {
      && ignoreBitsFirst < 64 && ignoreBitsLast < 64 && myFirstBlock + blocks < 0x1_0000
      && |full| == 64 * (myFirstBlock + blocks) - ignoreBitsLast
      && Start() <= |full|
      && Stores(value, blocks, myFirstBlock, Start(), |full|, full)
    }

    /** The tree below a node whose string is full. */
    static ghost predicate Branches(z: CompressedSequenceTrie?, o: CompressedSequenceTrie?, full: Bits, below: set<CompressedSequenceTrie>)
      reads below
      decreases below, 1
    {
      && (z != null ==> z in below && z.Repr <= below && z.Hangs(full, false) && z.Valid())
      && (o != null ==> o in below && o.Repr <= below && o.Hangs(full, true) && o.Valid())
      && (z != null && o != null ==> z.Repr !! o.Repr)
    }

    ghost predicate Hangs(parent: Bits, b: bool)
      reads this
    {
      Start() == |parent| < |full| && full[..|parent|] == parent && full[|parent|] == b
    }

    static ghost function Below(c: CompressedSequenceTrie?): map<Bits, CompressedSequenceTrie>
      reads c
    {
      if c == null then map[] else c.nodes
    }

    static ghost function Single(full: Bits, t: CompressedSequenceTrie): map<Bits, CompressedSequenceTrie> {
      map[full := t]
    }

    static ghost predicate Mapped(nodes: map<Bits, CompressedSequenceTrie>, full: Bits, t: CompressedSequenceTrie,
                                  z: CompressedSequenceTrie?, o: CompressedSequenceTrie?)
      reads z, o
    {
      nodes == Single(full, t) + Below(z) + Below(o)
    }

    /** The key and the own string agree on their common part before position hi. */
    ghost predicate AgreeUpTo(key: Bits, hi: int)
      reads this
    {
      forall k :: Start() <= k < hi && k < |key| && k < |full| ==> key[k] == full[k]
    }

    ghost predicate DifferIn(key: Bits, block: nat)
      reads this
    {
      exists j {:trigger Position(block, j)} :: 0 <= j < 64 && Start() <= Position(block, j) && Differ(key, full, Position(block, j))
    }

    ghost predicate Named()
      reads this, Repr
    {
      forall x :: x in nodes ==> nodes[x] in Repr && nodes[x].full == x && full <= x
    }

    ghost predicate Valid()
      reads this, Repr
      decreases Repr, 0
    {
      && this in Repr && Own()
      && Branches(zero, one, full, Repr - {this})
      && Mapped(nodes, full, this, zero, one)
      && Named()
    }

    ghost function Payloads(): Slots
      reads this, Repr
      requires Valid()
    {
      map x | x in nodes :: nodes[x].payload
    }
 
    /** The node of all of sequence (64-77). */
    constructor (sequence: seq<Bits>, paddingBits: nat)
      requires Padded(sequence, paddingBits)
      ensures Leaf(Key(sequence, paddingBits), 0) && fresh(this)
    {
      blocks := |sequence|;
      payload := None;
      myFirstBlock := 0;
      ignoreBitsFirst := 0;
      ignoreBitsLast := paddingBits;
      zero, one := null, null;
      value := sequence;
      full := Key(sequence, paddingBits);
      Repr := {this};
      new;
      nodes := map[Key(sequence, paddingBits) := this];
      StoresKey(sequence, paddingBits, 0, 0, value);
    }

    /** The node of what follows bit startingBit of block startingBlock (80-96). */
    constructor Suffix(sequence: seq<Bits>, startingBlock: nat, startingBit: nat, paddingBits: nat)
      requires Padded(sequence, paddingBits) && startingBit < 64 && startingBlock < |sequence|
      requires 64 * startingBlock + startingBit < |Key(sequence, paddingBits)|
      ensures Leaf(Key(sequence, paddingBits), 64 * startingBlock + startingBit) && fresh(this)
    {
      blocks := |sequence| - startingBlock;
      payload := None;
      myFirstBlock := startingBlock;
      ignoreBitsFirst := startingBit;
      ignoreBitsLast := paddingBits;
      zero, one := null, null;
      value := sequence[startingBlock..][0 := IgnoreFirst(sequence[startingBlock], startingBit)];
      full := Key(sequence, paddingBits);
      Repr := {this};
      new;
      nodes := map[Key(sequence, paddingBits) := this];
      StoresKey(sequence, paddingBits, startingBlock, startingBit, value);
    }

    ghost predicate Leaf(key: Bits, start: nat)
      reads this, Repr
    {
      && Valid() && Repr == {this} && full == key && Start() == start && payload == None && nodes == map[key := this]
      && zero == null && one == null
    }

    /** A node that takes over the rest of t from bit number bit of block number block on (101-121). */
    constructor Rest(t: CompressedSequenceTrie, block: nat, bit: nat)
      requires block < t.blocks <= |t.value| && |t.value[block]| == 64 && t.blocks < 0x1_0000
      ensures fresh(this)
      ensures blocks == t.blocks - block && myFirstBlock == t.myFirstBlock + block && ignoreBitsFirst == bit && ignoreBitsLast == t.ignoreBitsLast
      ensures value == t.value[block..t.blocks][0 := IgnoreFirst(t.value[block], bit)]
      ensures payload == t.payload && zero == t.zero && one == t.one
      ensures full == t.full && Repr == t.Repr - {t} + {this} && nodes == t.nodes[full := this]
    {
      blocks := t.blocks - block;
      myFirstBlock := t.myFirstBlock + block;
      value := t.value[block..t.blocks][0 := IgnoreFirst(t.value[block], bit)];
      ignoreBitsLast := t.ignoreBitsLast;
      ignoreBitsFirst := bit;
      payload := t.payload;
      zero := t.zero;
      one := t.one;
      full := t.full;
      new;
      Repr := t.Repr - {t} + {this};
      nodes := t.nodes[full := this];
    }

    /** The string position of bit number bit of the own block number block. */
    ghost function Position(block: nat, bit: nat): nat
      reads this
    {
      64 * (myFirstBlock + block) + bit
    }

    /** A node is valid when its own fields and the tree below it are. */
    lemma Assemble()
      requires this in Repr && Own() && Branches(zero, one, full, Repr - {this})
      requires Mapped(nodes, full, this, zero, one)
      ensures Valid()
    {
      forall x | x in nodes ensures nodes[x] in Repr && nodes[x].full == x && full <= x {
        if one != null && x in one.nodes {
        } else if zero != null && x in zero.nodes {
        }
      }
    }

    lemma Parts()
      requires Valid()
      ensures this in Repr && Own() && Branches(zero, one, full, Repr - {this})
      ensures full in nodes
    {
    }

    /** Below a node its string does not occur again. */
    lemma Retarget(child: CompressedSequenceTrie)
      requires Valid()
      ensures Mapped(nodes[full := child], full, child, zero, one) && nodes[full] == this
    {
      forall x | x in Below(zero) || x in Below(one) ensures x != full {
        if zero != null && x in zero.nodes { assert zero.Valid() && zero.full <= x; }
        if one != null && x in one.nodes { assert one.Valid() && one.full <= x; }
      }
    }

    lemma OwnFrom(lo: nat)
      requires ignoreBitsFirst < 64 && ignoreBitsLast < 64 && myFirstBlock + blocks < 0x1_0000
      requires |full| == 64 * (myFirstBlock + blocks) - ignoreBitsLast
      requires lo == Start() <= |full|
      requires Stores(value, blocks, myFirstBlock, lo, |full|, full)
      ensures Own()
    {
    }

    /** Lines 101-121: the child that takes over everything from the position on. */
    method TakeRest(block: nat, bit: nat) returns (child: CompressedSequenceTrie)
      requires Valid() && bit < 64 && block < blocks
      requires Start() <= Position(block, bit) < |full|
      ensures fresh(child) && child.Valid() && child.payload == payload
      ensures child.full == full && child.Start() == Position(block, bit)
      ensures child.Repr == Repr - {this} + {child} && child.Payloads() == Payloads()
      ensures |child.value| > 0 && |child.value[0]| == 64 && child.value[0][bit] == full[Position(block, bit)]
    {
      hide *;
      Parts();
      OwnBlocks();
      PositionIs(block, bit);
      child := new CompressedSequenceTrie.Rest(this, block, bit);
      Retarget(child);
      SuffixStored(value, blocks, myFirstBlock, Start(), |full|, full, block, bit, child.value);
      assert child.Repr - {child} == Repr - {this};
      child.StartIs();
      child.OwnFrom(child.Start());
      child.Assemble();
      RestPayloads(child);
    }

    lemma RestPayloads(child: CompressedSequenceTrie)
      requires Valid() && child.Valid() && child.nodes == nodes[full := child] && child.payload == payload && full in nodes && nodes[full] == this
      ensures child.Payloads() == Payloads()
    {
      assert Named();
    }

    lemma PositionIs(block: nat, bit: nat)
      ensures Position(block, bit) == 64 * (myFirstBlock + block) + bit
    {
    }

    lemma StartIs()
      ensures Start() == 64 * myFirstBlock + ignoreBitsFirst
    {
    }

    lemma OwnBlocks()
      requires Own()
      ensures ignoreBitsFirst < 64 && ignoreBitsLast < 64 && myFirstBlock + blocks < 0x1_0000
      ensures |full| == 64 * (myFirstBlock + blocks) - ignoreBitsLast
      ensures Stores(value, blocks, myFirstBlock, Start(), |full|, full)
      ensures blocks <= |value| && forall i :: 0 <= i < |value| ==> |value[i]| == 64
    {
    }

    /** split_me_at (98-149): the node keeps what lies before the position, a new child takes the rest with payload
        and children. */
    method SplitMeAt(block: nat, bit: nat)
      requires Valid() && bit < 64 && block < blocks
      requires Start() <= Position(block, bit) < |full|
      modifies this
      ensures Valid() && fresh(Repr - old(Repr)) && old(Repr) <= Repr && Start() == old(Start())
      ensures full == old(full)[..old(Position(block, bit))]
      ensures if old(full)[|full|] then one != null && zero == null else zero != null && one == null
      ensures full !in old(Payloads()) && Payloads() == old(Payloads())[full := None]
    {
      hide *;
      ghost var pos := Position(block, bit);
      PositionIs(block, bit);
      Parts();
      OwnBlocks();
      StartIs();
      var child := TakeRest(block, bit);
      label taken:
      Curb(block, bit, child);
      PrefixStored(old(value), old(blocks), myFirstBlock, old(Start()), |old(full)|, old(full), block, bit, blocks, ignoreBitsLast, value);
      StartIs();
      OwnFrom(Start());
      child.SameAfter@taken();
      OnlyBranch(child);
      Assemble();
      SplitPayloads(child, old(Payloads()));
    }

    /** Lines 137-146: the first words, with the last bits removed; nothing happens when no word is left. */
    static function CutOff(value: seq<Bits>, blocks: nat, ignoreLast: nat): seq<Bits>
      requires blocks <= |value| && forall i :: 0 <= i < |value| ==> |value[i]| == 64
    {
      if blocks == 0 then value else value[..blocks][blocks - 1 := IgnoreLast(value[blocks - 1], ignoreLast)]
    }

    /** Lines 123-146: the node itself is cut off. */
    method Curb(block: nat, bit: nat, child: CompressedSequenceTrie)
      requires bit < 64 && block < blocks <= |value| && forall i :: 0 <= i < |value| ==> |value[i]| == 64
      requires |child.value| > 0 && |child.value[0]| == 64 && child != this
      requires 64 * (myFirstBlock + block) + bit <= |full|
      modifies this
      ensures payload == None && (one, zero) == if child.value[0][bit] then (child, null) else (null, child)
      ensures ignoreBitsLast == if bit == 0 then 0 else 64 - bit
      ensures blocks == if bit != 0 then block + 1 else block
      ensures value == CutOff(old(value), blocks, ignoreBitsLast)
      ensures full == old(full[..64 * (myFirstBlock + block) + bit]) && Repr == old(Repr) + {child} && nodes == child.nodes[full := this]
      ensures myFirstBlock == old(myFirstBlock) && ignoreBitsFirst == old(ignoreBitsFirst)
    {
      payload := None;
      one, zero := null, null;
      if child.value[0][bit] { one := child; } else { zero := child; }
      ignoreBitsLast := if 64 - bit == 64 then 0 else 64 - bit;
      blocks := if bit != 0 then block + 1 else block;
      value := CutOff(value, blocks, ignoreBitsLast);
      full := full[..64 * (myFirstBlock + block) + bit];
      Repr := Repr + {child};
      nodes := child.nodes[full := this];
    }

    twostate lemma SameAfter()
      requires old(Valid()) && unchanged(this) && forall t :: t in Repr ==> unchanged(t)
      ensures Valid() && Payloads() == old(Payloads())
    {
    }

    lemma SplitPayloads(child: CompressedSequenceTrie, before: Slots)
      requires Valid() && child.Valid() && child in Repr && child.Repr <= Repr && full !in child.nodes
      requires nodes == child.nodes[full := this] && payload == None
      requires before == child.Payloads()
      ensures Payloads() == before[full := None] && full !in before
    {
    }

    /** A new child below an otherwise bare node. */
    lemma OnlyBranch(child: CompressedSequenceTrie)
      requires child.Valid() && Repr == child.Repr + {this} && this !in child.Repr
      requires child.Start() == |full| < |child.full| && child.full[..|full|] == full
      requires (one, zero) == if child.full[|full|] then (child, null) else (null, child)
      ensures Branches(zero, one, full, Repr - {this})
      ensures full !in child.nodes && Mapped(child.nodes[full := this], full, this, zero, one)
    {
      assert Repr - {this} == child.Repr;
    }

    lemma NothingCompared(key: Bits)
      requires Own()
      ensures AgreeUpTo(key, Position(0, 0))
    {
    }

    lemma AllCompared(sequence: seq<Bits>, paddingBits: nat, i: nat)
      requires Own() && Padded(sequence, paddingBits) && (i >= blocks || myFirstBlock + i >= |sequence|)
      requires AgreeUpTo(Key(sequence, paddingBits), Position(i, 0))
      ensures AgreeUpTo(Key(sequence, paddingBits), |full|)
    {
    }

    /** The masked words are equal exactly when key and string agree in this block. */
    lemma BlockCompared(sequence: seq<Bits>, paddingBits: nat, i: nat, input_test: Bits, value_test: Bits)
      requires Own() && Padded(sequence, paddingBits) && i < blocks && myFirstBlock + i < |sequence|
      requires var a := if i == 0 then IgnoreFirst(sequence[myFirstBlock + i], ignoreBitsFirst) else sequence[myFirstBlock + i];
        input_test == if i == blocks - 1 then IgnoreLast(a, ignoreBitsLast) else a
      requires value_test == if myFirstBlock + i == |sequence| - 1 then IgnoreLast(value[i], paddingBits) else value[i]
      requires AgreeUpTo(Key(sequence, paddingBits), Position(i, 0))
      ensures input_test == value_test ==> AgreeUpTo(Key(sequence, paddingBits), Position(i + 1, 0))
      ensures input_test != value_test ==> DifferIn(Key(sequence, paddingBits), i)
    {
      var key := Key(sequence, paddingBits);
      forall j: nat | j < 64
        ensures input_test[j] == (Start() <= Position(i, j) < |full| && Position(i, j) < |key| && key[Position(i, j)])
        ensures value_test[j] == (Start() <= Position(i, j) < |full| && Position(i, j) < |key| && full[Position(i, j)])
      {
        KeyBit(sequence, paddingBits, myFirstBlock + i, j);
      }
      if input_test == value_test {
        forall k | Start() <= k < Position(i + 1, 0) && k < |key| && k < |full| ensures key[k] == full[k] {
          if k >= Position(i, 0) {
            var j := k - Position(i, 0);
            assert Position(i, j) == k && input_test[j] == value_test[j];
          }
        }
      } else {
        assert |input_test| == |value_test| == 64;
        var j :| 0 <= j < 64 && input_test[j] != value_test[j];
        assert Differ(key, full, Position(i, j));
      }
    }

    // ----- comparing (156-185, 263-272) -----

    /** Lines 161-180: the first block in which the key and the own string differ on their common part, or -1. */
    method FindDifference(sequence: seq<Bits>, paddingBits: nat) returns (block: int)
      requires Own() && Padded(sequence, paddingBits)
      ensures -1 <= block < blocks && (block >= 0 ==> myFirstBlock + block < |sequence|)
      ensures block == -1 ==> AgreeUpTo(Key(sequence, paddingBits), |full|)
      ensures block >= 0 ==> AgreeUpTo(Key(sequence, paddingBits), Position(block, 0)) && DifferIn(Key(sequence, paddingBits), block)
    {
      hide *;
      PaddedWords(sequence, paddingBits);
      OwnBlocks();
      StartIs();
      ghost var key := Key(sequence, paddingBits);
      NothingCompared(key);
      var i := 0;
      while i < blocks
        invariant i <= blocks && AgreeUpTo(key, Position(i, 0))
      {
        if myFirstBlock + i >= |sequence| { break; }
        PositionIs(i, 0);
        PositionIs(i + 1, 0);
        var input_test := sequence[myFirstBlock + i];
        if i == 0 { input_test := IgnoreFirst(input_test, ignoreBitsFirst); }
        if i == blocks - 1 { input_test := IgnoreLast(input_test, ignoreBitsLast); }
        var value_test := value[i];
        if myFirstBlock + i == |sequence| - 1 { value_test := IgnoreLast(value_test, paddingBits); }
        BlockCompared(sequence, paddingBits, i, input_test, value_test);
        if input_test != value_test {
          return i;
        }
        i := i + 1;
      }
      AllCompared(sequence, paddingBits, i);
      return -1;
    }

    /** Lines 263-276: the first bit in which key and string differ. */
    method FirstDifference(sequence: seq<Bits>, paddingBits: nat, block: nat) returns (splitBit: nat)
      requires Own() && Padded(sequence, paddingBits) && block < blocks && myFirstBlock + block < |sequence|
      requires AgreeUpTo(Key(sequence, paddingBits), Position(block, 0)) && DifferIn(Key(sequence, paddingBits), block)
      ensures splitBit < 64 && Start() <= Position(block, splitBit)
      ensures Differ(Key(sequence, paddingBits), full, Position(block, splitBit))
      ensures AgreeUpTo(Key(sequence, paddingBits), Position(block, splitBit))
    {
      hide *;
      PaddedWords(sequence, paddingBits);
      OwnBlocks();
      var input_test := sequence[myFirstBlock + block];
      var myValue := value[block];
      if block == 0 { input_test := IgnoreFirst(input_test, ignoreBitsFirst); }
      splitBit := 64;
      var i := 0;
      while i < 64
        invariant i <= 64 && splitBit == 64
        invariant forall j :: 0 <= j < i ==> input_test[j] == myValue[j]
      {
        if input_test[i] != myValue[i] {
          splitBit := i;
          break;
        }
        i := i + 1;
      }
      FirstDiffers(sequence, paddingBits, block, input_test, i);
    }

    lemma FirstDiffers(sequence: seq<Bits>, paddingBits: nat, block: nat, input_test: Bits, i: nat)
      requires Own() && Padded(sequence, paddingBits) && block < blocks && myFirstBlock + block < |sequence|
      requires AgreeUpTo(Key(sequence, paddingBits), Position(block, 0)) && DifferIn(Key(sequence, paddingBits), block)
      requires input_test == if block == 0 then IgnoreFirst(sequence[myFirstBlock + block], ignoreBitsFirst) else sequence[myFirstBlock + block]
      requires i <= 64 && |value[block]| == 64 && (forall j :: 0 <= j < i ==> input_test[j] == value[block][j])
      requires i < 64 ==> input_test[i] != value[block][i]
      ensures i < 64 && Start() <= Position(block, i) && Differ(Key(sequence, paddingBits), full, Position(block, i))
      ensures AgreeUpTo(Key(sequence, paddingBits), Position(block, i))
    {
      var key := Key(sequence, paddingBits);
      forall j: nat | j < 64
        ensures input_test[j] == (Start() <= Position(block, j) < |key| && key[Position(block, j)])
        ensures value[block][j] == (Start() <= Position(block, j) < |full| && full[Position(block, j)])
      {
        KeyBit(sequence, paddingBits, myFirstBlock + block, j);
      }
      var d :| 0 <= d < 64 && Start() <= Position(block, d) && Differ(key, full, Position(block, d));
      assert input_test[d] != value[block][d];
      assert i <= d;
      forall k | Start() <= k < Position(block, i) && k < |key| && k < |full| ensures key[k] == full[k] {
        if k >= Position(block, 0) {
          var j := k - Position(block, 0);
          assert Position(block, j) == k && input_test[j] == value[block][j];
        }
      }
    }

    // ----- contents -----

    static ghost function PayloadsOf(c: CompressedSequenceTrie?): Slots
      reads c, if c == null then {} else c.Repr
      requires c != null ==> c.Valid()
    {
      if c == null then map[] else c.Payloads()
    }

    /** The contents of a node and of the trees below it. */
    lemma Contents()
      requires Valid()
      ensures (zero != null ==> zero.Valid()) && (one != null ==> one.Valid())
      ensures Payloads() == map[full := payload] + PayloadsOf(zero) + PayloadsOf(one)
      ensures Side(PayloadsOf(zero), full, false) && Side(PayloadsOf(one), full, true)
    {
      Retarget(this);
      assert nodes[full := this] == nodes;
      ChildrenValid();
      hide Valid, Own, Branches, Named, Payloads, Side;
      SideOf(zero, false);
      SideOf(one, true);
      MappedPayloads();
    }

    lemma ChildrenValid()
      requires Valid()
      ensures zero != null ==> zero.Valid() && zero.Hangs(full, false)
      ensures one != null ==> one.Valid() && one.Hangs(full, true)
    {
    }

    lemma MappedPayloads()
      requires Valid() && (zero != null ==> zero.Valid()) && (one != null ==> one.Valid())
      requires Mapped(nodes, full, this, zero, one)
      ensures Payloads() == map[full := payload] + PayloadsOf(zero) + PayloadsOf(one)
    {
      hide Valid, Own, Branches, Named;
      forall x | x in Payloads()
        ensures x in map[full := payload] + PayloadsOf(zero) + PayloadsOf(one)
        ensures Payloads()[x] == (map[full := payload] + PayloadsOf(zero) + PayloadsOf(one))[x]
      {
        if one != null && x in one.nodes {
          assert nodes[x] == one.nodes[x] && x in one.Payloads();
        } else if zero != null && x in zero.nodes {
          assert nodes[x] == zero.nodes[x] && x in zero.Payloads();
        } else {
          assert x == full && nodes[x] == this;
        }
      }
    }

    lemma SideOf(c: CompressedSequenceTrie?, b: bool)
      requires c != null ==> c.Valid() && c.Hangs(full, b)
      ensures Side(PayloadsOf(c), full, b)
    {
      if c != null {
        forall x | x in c.Payloads() ensures |x| > |full| && x[..|full|] == full && x[|full|] == b {
          assert c.full <= x;
          assert x[..|full|] == c.full[..|full|];
        }
      }
    }

    // ----- inserting (151-283) -----

    /** The string of the node stays, or is cut where the key leaves it or ends. */
    static ghost predicate CutBy(full0: Bits, full1: Bits, key: Bits) {
      full1 == full0 || (full1 <= full0 && (full1 == key || Differ(key, full0, |full1|)))
    }

    /** What an insertion does to a tree: ok is false exactly when the key has no padding and ends inside a node. */
    twostate predicate Inserted(key: Bits, padding: nat, ok: bool, new slot: CompressedSequenceTrie)
      requires old(Valid())
      reads this, Repr
    {
      && Valid() && old(Repr) <= Repr && Start() == old(Start())
      && CutBy(old(full), full, key)
      && Grown(old(Payloads()), Payloads(), key)
      && (ok <==> !(padding == 0 && Inside(old(Payloads()), key)))
      && (!ok ==> Payloads() == old(Payloads()))
      && (ok ==> Names(key, slot))
    }

    ghost predicate Names(key: Bits, slot: CompressedSequenceTrie)
      reads this, Repr
    {
      slot in Repr && key in nodes && nodes[key] == slot
    }

    /** Lines 199-205, 221-238, 275-281: the part of the key behind this node gets a node of its own. */
    method AttachLeaf(sequence: seq<Bits>, paddingBits: nat, block: nat, bit: nat) returns (slot: CompressedSequenceTrie)
      requires Valid() && Padded(sequence, paddingBits) && block < |sequence| && bit < 64
      requires |full| == 64 * block + bit < |Key(sequence, paddingBits)| && full <= Key(sequence, paddingBits)
      requires if sequence[block][bit] then one == null else zero == null
      modifies this
      ensures Valid() && old(Repr) <= Repr && fresh(Repr - old(Repr)) && Start() == old(Start()) && full == old(full)
      ensures Grown(old(Payloads()), Payloads(), Key(sequence, paddingBits)) && !Inside(old(Payloads()), Key(sequence, paddingBits))
      ensures Names(Key(sequence, paddingBits), slot)
    {
      hide Own, Stores, Branches, Named, Valid, Payloads, Key, Padded, Words, Mapped, Grown, Inside, Start, Hangs, Names, Leaf;
      PaddedWords(sequence, paddingBits);
      KeyBit(sequence, paddingBits, block, bit);
      Parts();
      Contents();
      ghost var key := Key(sequence, paddingBits);
      slot := new CompressedSequenceTrie.Suffix(sequence, block, bit, paddingBits);
      slot.LeafIs(key, |full|);
      slot.HangsAt(full, sequence[block][bit]);
      HangLeaf(sequence[block][bit], slot, key);
    }

    method HangLeaf(b: bool, leaf: CompressedSequenceTrie, ghost key: Bits)
      requires Valid() && Branch(b) == null && full <= key && |full| < |key| && key[|full|] == b
      requires leaf !in Repr && leaf.Valid() && leaf.Hangs(full, b) && leaf.Repr == {leaf} && leaf.Payloads() == map[key := None]
      requires leaf.Names(key, leaf)
      modifies this
      ensures Valid() && Repr == old(Repr) + {leaf} && Start() == old(Start()) && full == old(full)
      ensures Grown(old(Payloads()), Payloads(), key) && !Inside(old(Payloads()), key) && Names(key, leaf)
    {
      hide Own, Stores, Branches, Named, Valid, Payloads, Mapped, Grown, Inside, Start, Hangs, Names, Leaf;
      Parts();
      Contents();
      ghost var z0, o0 := PayloadsOf(zero), PayloadsOf(one);
      SiblingInside(b);
      if b { one := leaf; } else { zero := leaf; }
      Adopt(leaf);
      Regrown(b, leaf);
      Contents();
      NothingYet(key);
      GrownBelow(full, payload, z0, o0, PayloadsOf(zero), PayloadsOf(one), key, b);
      NamedBelow(b, leaf, key, leaf);
    }

    lemma SiblingInside(b: bool)
      requires Valid()
      ensures Sibling(b) != null ==> Sibling(b).Repr <= Repr && this !in Sibling(b).Repr
    {
    }

    ghost function Sibling(b: bool): CompressedSequenceTrie?
      reads this
    {
      if b then zero else one
    }

    ghost function Branch(b: bool): CompressedSequenceTrie?
      reads this
    {
      if b then one else zero
    }

    /** Brings the ghost fields in line with the children. */
    ghost method Adopt(c: CompressedSequenceTrie)
      requires c != this && zero != this && one != this
      modifies this`Repr, this`nodes
      ensures Repr == old(Repr) + c.Repr && Mapped(nodes, full, this, zero, one)
    {
      Repr := Repr + c.Repr;
      nodes := Single(full, this) + Below(zero) + Below(one);
    }

    twostate predicate OnlyBranchChanged(b: bool)
      reads this
    {
      && value == old(value) && blocks == old(blocks) && full == old(full) && payload == old(payload)
      && myFirstBlock == old(myFirstBlock) && ignoreBitsFirst == old(ignoreBitsFirst) && ignoreBitsLast == old(ignoreBitsLast)
      && Sibling(b) == old(Sibling(b)) && old(Repr) <= Repr
    }

    /** After the tree on side b has become c, the whole tree is valid again and the other side is as before. */
    twostate lemma Regrown(b: bool, new c: CompressedSequenceTrie)
      requires old(Valid()) && OnlyBranchChanged(b) && Branch(b) == c
      requires old(Sibling(b)) != null ==> old(Sibling(b).Valid())
      requires Sibling(b) != null ==> forall t :: t in old(Sibling(b).Repr) ==> unchanged(t) && t !in c.Repr
      requires c.Valid() && c.Hangs(full, b) && this !in c.Repr && c.Repr <= Repr
      requires Mapped(nodes, full, this, zero, one)
      ensures Valid() && Start() == old(Start())
      ensures Sibling(b) != null ==> Sibling(b).Valid()
      ensures PayloadsOf(Sibling(b)) == old(PayloadsOf(Sibling(b)))
    {
      var o := Sibling(b);
      if o != null {
        assert old(o.Valid()) && old(o.Hangs(full, !b));
        o.SameAfter();
      }
      Reassemble(b, c);
    }

    lemma Reassemble(b: bool, c: CompressedSequenceTrie)
      requires this in Repr && Own() && Branch(b) == c && c.Valid() && c.Hangs(full, b) && this !in c.Repr && c.Repr <= Repr
      requires var o := Sibling(b); o != null ==> o.Valid() && o.Hangs(full, !b) && this !in o.Repr && o.Repr <= Repr && o.Repr !! c.Repr
      requires Mapped(nodes, full, this, zero, one)
      ensures Valid()
    {
      assert c in c.Repr;
      assert Sibling(b) != null ==> Sibling(b) in Sibling(b).Repr;
      assert Branches(zero, one, full, Repr - {this});
      hide Branches, Own;
      Assemble();
    }

    lemma HangsAt(parent: Bits, b: bool)
      requires Start() == |parent| < |full| && parent <= full && full[|parent|] == b
      ensures Hangs(parent, b)
    {
    }

    lemma BelowKeys(c: CompressedSequenceTrie?)
      requires c != null ==> c.Valid()
      ensures forall x :: x in Below(c) <==> x in PayloadsOf(c)
    {
    }

    lemma NamedBelow(b: bool, c: CompressedSequenceTrie, key: Bits, slot: CompressedSequenceTrie)
      requires Valid() && Branch(b) == c && c.Names(key, slot)
      ensures Names(key, slot)
    {
      if b {
      } else {
        Contents();
        ChildrenValid();
        BelowKeys(zero);
        BelowKeys(one);
        assert key in Below(zero) && key !in Below(one);
      }
    }

    /** Where the key goes on behind this node: bit next_bit of block nextBlock is its next bit (189-206, 213-240). */
    method InsertBelow(sequence: seq<Bits>, paddingBits: nat, nextBlock: nat, next_bit: nat) returns (ok: bool, slot: CompressedSequenceTrie)
      requires Valid() && Padded(sequence, paddingBits) && nextBlock < |sequence| && next_bit < 64
      requires |full| == 64 * nextBlock + next_bit < |Key(sequence, paddingBits)| && full <= Key(sequence, paddingBits)
      modifies Repr
      ensures Inserted(Key(sequence, paddingBits), paddingBits, ok, slot) && fresh(Repr - old(Repr))
      decreases Repr, 0
    {
      hide Own, Stores, Branches, Named, Valid, Payloads, Key, Padded, Words, Mapped, Grown, Inside, Start, Hangs, Names, Leaf;
      PaddedWords(sequence, paddingBits);
      KeyBit(sequence, paddingBits, nextBlock, next_bit);
      Parts();
      Contents();
      ghost var key := Key(sequence, paddingBits);
      ghost var b := sequence[nextBlock][next_bit];
      var next := if sequence[nextBlock][next_bit] then one else zero;
      if next == null {
        slot := AttachLeaf(sequence, paddingBits, nextBlock, next_bit);
        ok := true;
      } else {
        ghost var z0, o0 := PayloadsOf(zero), PayloadsOf(one);
        ChildrenValid();
        ChildrenApart();
        next.FitsBelow(full, b, key);
        ok, slot := next.Insert(sequence, paddingBits);
        Adopt(next);
        next.StillHangs(old(next.full), full, b, key);
        Regrown(b, next);
        Contents();
        GrownBelow(full, payload, z0, o0, PayloadsOf(zero), PayloadsOf(one), key, b);
        if ok { NamedBelow(b, next, key, slot); }
      }
    }

    lemma ChildrenApart()
      requires Valid()
      ensures zero != null ==> zero.Repr < Repr && this !in zero.Repr
      ensures one != null ==> one.Repr < Repr && this !in one.Repr
      ensures zero != null && one != null ==> zero.Repr !! one.Repr
    {
    }

    ghost predicate Fits(key: Bits)
      reads this
    {
      Start() < |key| && Start() <= |full| && key[..Start()] == full[..Start()]
    }

    lemma FitsBelow(parent: Bits, b: bool, key: Bits)
      requires Hangs(parent, b) && parent <= key && |parent| < |key| && key[|parent|] == b
      ensures Fits(key)
    {
    }

    lemma StillHangs(full0: Bits, parent: Bits, b: bool, key: Bits)
      requires CutBy(full0, full, key) && parent <= key && |parent| < |key| && key[|parent|] == b
      requires |parent| < |full0| && parent <= full0 && full0[|parent|] == b && Start() == |parent| <= |full|
      ensures Hangs(parent, b)
    {
    }

    /** Key and string agree on their common part: one of them starts with the other. */
    lemma PrefixOf(key: Bits)
      requires Own() && Fits(key) && AgreeUpTo(key, |full|)
      ensures |key| <= |full| ==> key <= full
      ensures |full| <= |key| ==> full <= key
      ensures Start() < |key| && (|key| < |full| ==> AgreeUpTo(key, |key|))
    {
      forall k | 0 <= k < |key| && k < |full| ensures key[k] == full[k] {
        if k < Start() { assert key[..Start()][k] == full[..Start()][k]; }
      }
    }

    lemma Found()
      requires Valid()
      ensures Grown(Payloads(), Payloads(), full) && !Inside(Payloads(), full) && Names(full, this)
    {
      Retarget(this);
    }

    /** All strings of the tree start with the string of its root. */
    lemma Strings()
      requires Valid()
      ensures full in Payloads() && Names(full, this) && forall x :: x in Payloads() ==> full <= x
    {
      Retarget(this);
    }

    /** Lines 207-217 and 242-252: the key ends inside this node. */
    method SplitHere(sequence: seq<Bits>, paddingBits: nat, block: nat) returns (ok: bool, slot: CompressedSequenceTrie)
      requires Valid() && Padded(sequence, paddingBits) && block < blocks
      requires Start() < |Key(sequence, paddingBits)| < |full| && Key(sequence, paddingBits) <= full
      requires |Key(sequence, paddingBits)| == Position(block, 64 - paddingBits)
      modifies this
      ensures Inserted(Key(sequence, paddingBits), paddingBits, ok, slot) && fresh(Repr - old(Repr))
    {
      hide Own, Stores, Branches, Named, Valid, Payloads, Key, Padded, Words, Mapped, Grown, Inside, Start, Hangs, Names, Leaf;
      PaddedWords(sequence, paddingBits);
      ghost var key, before := Key(sequence, paddingBits), Payloads();
      Strings();
      EndsInside(before, full, key);
      slot := this;
      var splitBit := 64 - paddingBits;
      if splitBit == 64 {
        ok := false;
      } else {
        PaddedWords(sequence, paddingBits);
        SplitMeAt(block, splitBit);
        assert full == key;
        Strings();
        ok := true;
      }
    }

    /** Lines 255-281: the key leaves this node in the given block. */
    method SplitAtDifference(sequence: seq<Bits>, paddingBits: nat, block: nat) returns (ok: bool, slot: CompressedSequenceTrie)
      requires Valid() && Padded(sequence, paddingBits) && block < blocks && myFirstBlock + block < |sequence|
      requires Fits(Key(sequence, paddingBits))
      requires AgreeUpTo(Key(sequence, paddingBits), Position(block, 0)) && DifferIn(Key(sequence, paddingBits), block)
      modifies this
      ensures Inserted(Key(sequence, paddingBits), paddingBits, ok, slot) && fresh(Repr - old(Repr))
    {
      hide Own, Stores, Branches, Named, Valid, Payloads, Key, Padded, Words, Mapped, Grown, Inside, Start, Hangs, Names, Leaf, AgreeUpTo, DifferIn;
      PaddedWords(sequence, paddingBits);
      Parts();
      OwnBlocks();
      ghost var key, before, full0 := Key(sequence, paddingBits), Payloads(), full;
      Strings();
      var splitBit := FirstDifference(sequence, paddingBits, block);
      PositionIs(block, splitBit);
      KeyBit(sequence, paddingBits, myFirstBlock + block, splitBit);
      PrefixUpTo(key, Position(block, splitBit));
      var nextBlock := myFirstBlock + block;
      SplitMeAt(block, splitBit);
      ghost var middle := Payloads();
      slot := AttachLeaf(sequence, paddingBits, nextBlock, splitBit);
      ok := true;
      LeavesInside(before, middle, Payloads(), full0, full, key);
    }

    lemma PrefixUpTo(key: Bits, pos: nat)
      requires Own() && Fits(key) && AgreeUpTo(key, pos) && Start() <= pos < |full| && pos < |key|
      ensures key[..pos] == full[..pos]
    {
      forall k | 0 <= k < pos ensures key[k] == full[k] {
        if k < Start() { assert key[..Start()][k] == full[..Start()][k]; }
      }
    }

    /** insert (151-283). ok is false where the code would split at bit 64 of a word (246). */
    method Insert(sequence: seq<Bits>, paddingBits: nat) returns (ok: bool, slot: CompressedSequenceTrie)
      requires Valid() && Padded(sequence, paddingBits) && Fits(Key(sequence, paddingBits))
      modifies Repr
      ensures Inserted(Key(sequence, paddingBits), paddingBits, ok, slot) && fresh(Repr - old(Repr))
      decreases Repr, 1
    {
      hide Own, Stores, Branches, Named, Valid, Payloads, Key, Padded, Words, Mapped, Grown, Inside, Start, Hangs, Names, Leaf;
      PaddedWords(sequence, paddingBits);
      Parts();
      OwnBlocks();
      StartIs();
      ghost var key := Key(sequence, paddingBits);
      var block_with_first_difference := FindDifference(sequence, paddingBits);
      if block_with_first_difference == -1 {
        PrefixOf(key);
        if myFirstBlock + blocks == |sequence| {
          if ignoreBitsLast == paddingBits {
            ok, slot := true, this;
            assert key == full;
            Found();
          } else if ignoreBitsLast > paddingBits {
            ok, slot := InsertBelow(sequence, paddingBits, |sequence| - 1, 64 - ignoreBitsLast);
          } else {
            ok, slot := SplitHere(sequence, paddingBits, blocks - 1);
          }
        } else if myFirstBlock + blocks < |sequence| {
          var next_bit := 64 - ignoreBitsLast;
          if next_bit == 64 { next_bit := 0; }
          var nextBlock := myFirstBlock + blocks - (if next_bit != 0 then 1 else 0);
          ok, slot := InsertBelow(sequence, paddingBits, nextBlock, next_bit);
        } else {
          ok, slot := SplitHere(sequence, paddingBits, |sequence| - myFirstBlock - 1);
        }
      } else {
        ok, slot := SplitAtDifference(sequence, paddingBits, block_with_first_difference);
      }
    }

    // ----- writing through a slot -----

    /** Only payloads have changed, and at most the one of slot. */
    static twostate predicate OnlyPayload(trees: set<CompressedSequenceTrie>, slot: CompressedSequenceTrie)
      reads trees
    {
      forall t :: t in trees ==>
        && t.value == old(t.value) && t.blocks == old(t.blocks) && t.myFirstBlock == old(t.myFirstBlock)
        && t.ignoreBitsFirst == old(t.ignoreBitsFirst) && t.ignoreBitsLast == old(t.ignoreBitsLast)
        && t.zero == old(t.zero) && t.one == old(t.one)
        && t.full == old(t.full) && t.nodes == old(t.nodes) && t.Repr == old(t.Repr)
        && (t != slot ==> t.payload == old(t.payload))
    }

    /** Own depends on the stored bits only. */
    twostate lemma Unmoved()
      requires old(Own())
      requires value == old(value) && blocks == old(blocks) && full == old(full)
      requires myFirstBlock == old(myFirstBlock) && ignoreBitsFirst == old(ignoreBitsFirst) && ignoreBitsLast == old(ignoreBitsLast)
      ensures Own() && Start() == old(Start())
    {
    }

    twostate lemma PayloadWritten(slot: CompressedSequenceTrie)
      requires old(Valid()) && this in old(Repr) && OnlyPayload(old(Repr), slot)
      ensures Valid() && nodes == old(nodes) && Repr == old(Repr) && Start() == old(Start())
      decreases old(Repr)
    {
      if old(zero) != null { old(zero).PayloadWritten(slot); }
      if old(one) != null { old(one).PayloadWritten(slot); }
      hide Stores;
      Unmoved();
      assert Branches(zero, one, full, Repr - {this});
      hide Own, Branches;
      assert Mapped(nodes, full, this, zero, one);
      Assemble();
    }

    /** Inserts the sequence and sets its slot, as every caller does with the returned pointer. */
    method Store(sequence: seq<Bits>, paddingBits: nat, item: nat) returns (ok: bool, previous: Option<nat>)
      requires Valid() && Padded(sequence, paddingBits) && Start() == 0
      modifies Repr
      ensures Valid() && Start() == 0 && fresh(Repr - old(Repr))
      ensures ok <==> !(paddingBits == 0 && Inside(old(Payloads()), Key(sequence, paddingBits)))
      ensures ok ==> previous == Lookup(old(Items(Payloads())), Key(sequence, paddingBits))
      ensures Items(Payloads()) == if ok then old(Items(Payloads()))[Key(sequence, paddingBits) := item] else old(Items(Payloads()))
    {
      hide Own, Stores, Branches, Named, Valid, Payloads, Key, Padded, Words, Mapped, Grown, Inside, Start, Hangs, Names, Leaf, Items, Lookup, OnlyPayload;
      PaddedWords(sequence, paddingBits);
      Parts();
      RootFits(Key(sequence, paddingBits));
      ghost var key, before := Key(sequence, paddingBits), Payloads();
      var slot: CompressedSequenceTrie;
      ok, slot := Insert(sequence, paddingBits);
      if ok {
        previous := slot.payload;
        ghost var middle := Payloads();
        NamesSlot(key, slot);
        SetSlot(key, slot, item);
        ItemsSet(before, middle, key, item);
      } else {
        previous := None;
      }
    }

    method SetSlot(ghost key: Bits, slot: CompressedSequenceTrie, item: nat)
      requires Valid() && Names(key, slot)
      modifies slot
      ensures Valid() && Repr == old(Repr) && Start() == old(Start()) && slot.payload == Some(item)
      ensures Payloads() == old(Payloads())[key := Some(item)] && old(slot.payload) == old(Payloads())[key]
    {
      hide Own, Stores, Branches, Named, Valid, Payloads, Mapped, Start, Leaf;
      Parts();
      NamesSlot(key, slot);
      slot.payload := Some(item);
      SlotSet(slot);
    }

    lemma RootFits(key: Bits)
      requires Own() && Start() == 0 && |key| > 0
      ensures Fits(key)
    {
    }

    twostate lemma SlotSet(slot: CompressedSequenceTrie)
      requires old(Valid()) && this in old(Repr) && OnlyPayload(old(Repr), slot)
      requires old(Names(slot.full, slot))
      ensures Valid() && Repr == old(Repr) && Start() == old(Start())
      ensures Payloads() == old(Payloads())[old(slot.full) := slot.payload] && old(slot.payload) == old(Payloads())[old(slot.full)]
    {
      PayloadWritten(slot);
    }

    lemma NamesSlot(key: Bits, slot: CompressedSequenceTrie)
      requires Valid() && Names(key, slot)
      ensures slot in Repr && slot.full == key && key in Payloads() && Payloads()[key] == slot.payload
    {
    }

    lemma LeafIs(key: Bits, start: nat)
      requires Leaf(key, start)
      ensures Valid() && Repr == {this} && full == key && Start() == start && Payloads() == map[key := None] && Names(key, this)
    {
    }
  }

  /** A key that ends inside the string of the root of a tree. */
  lemma EndsInside(before: Slots, full: Bits, key: Bits)
    requires full in before && (forall x :: x in before ==> full <= x) && key <= full && |key| < |full|
    ensures Inside(before, key) && Grown(before, before, key) && Grown(before, before[key := None], key)
  {
  }

  /** A key that leaves the string of the root of a tree. */
  lemma LeavesInside(before: Slots, middle: Slots, after: Slots, full0: Bits, full: Bits, key: Bits)
    requires (forall x :: x in before ==> full0 <= x) && Differ(key, full0, |full|)
    requires full !in before && middle == before[full := None] && full <= key && Grown(middle, after, key)
    ensures Grown(before, after, key) && !Inside(before, key)
  {
    forall x | x in before ensures x != key && !(key <= x) {
      assert x[|full|] == full0[|full|];
    }
  }

  lemma NothingYet(key: Bits)
    ensures Grown(map[], map[key := None], key) && !Inside(map[], key)
  {
  }

  /** All strings continue full with b. */
  ghost predicate Side(slots: Slots, full: Bits, b: bool) {
    forall x :: x in slots ==> |x| > |full| && x[..|full|] == full && x[|full|] == b
  }

  /** One of the two trees below a node grows. */
  lemma GrownBelow(full: Bits, p: Option<nat>, z0: Slots, o0: Slots, z1: Slots, o1: Slots, key: Bits, b: bool)
    requires Side(z0, full, false) && Side(z1, full, false) && Side(o0, full, true) && Side(o1, full, true)
    requires |full| < |key| && key[..|full|] == full && key[|full|] == b
    requires if b then z0 == z1 && Grown(o0, o1, key) else o0 == o1 && Grown(z0, z1, key)
    ensures Grown(map[full := p] + z0 + o0, map[full := p] + z1 + o1, key)
    ensures Inside(map[full := p] + z0 + o0, key) <==> Inside(if b then o0 else z0, key)
  {
    var before, after, c0 := map[full := p] + z0 + o0, map[full := p] + z1 + o1, if b then o0 else z0;
    assert key in before <==> key in c0;
    if x :| x in before && key <= x {
      assert x[..|full|] == full && x[|full|] == b;
      assert x in c0;
    }
    if x :| x in c0 && key <= x {
      assert x in before;
    }
  }

  lemma SuffixStored(value: seq<Bits>, blocks: nat, first: nat, lo: nat, hi: nat, full: Bits, block: nat, bit: nat, value2: seq<Bits>)
    requires Stores(value, blocks, first, lo, hi, full) && block < blocks && bit < 64
    requires lo <= 64 * (first + block) + bit < hi
    requires value2 == value[block..blocks][0 := IgnoreFirst(value[block], bit)]
    ensures Stores(value2, blocks - block, first + block, 64 * (first + block) + bit, hi, full)
    ensures |value2| > 0 && |value2[0]| == 64 && value2[0][bit] == full[64 * (first + block) + bit]
  {
    forall i: nat, j: nat | i < blocks - block && j < 64
      ensures value2[i][j] == (64 * (first + block) + bit <= 64 * (first + block + i) + j < hi && full[64 * (first + block + i) + j])
    {
      assert value[block + i][j] == (lo <= 64 * (first + block + i) + j < hi && full[64 * (first + block + i) + j]);
    }
  }

  lemma PrefixStored(value: seq<Bits>, blocks: nat, first: nat, lo: nat, hi: nat, full: Bits, block: nat, bit: nat,
                     blocks2: nat, ignoreLast: nat, value2: seq<Bits>)
    requires Stores(value, blocks, first, lo, hi, full) && block < blocks && bit < 64
    requires lo <= 64 * (first + block) + bit < hi
    requires blocks2 == (if bit != 0 then block + 1 else block) && ignoreLast == (if bit == 0 then 0 else 64 - bit)
    requires value2 == CompressedSequenceTrie.CutOff(value, blocks2, ignoreLast)
    ensures Stores(value2, blocks2, first, lo, 64 * (first + block) + bit, full[..64 * (first + block) + bit])
    ensures 64 * (first + block) + bit == 64 * (first + blocks2) - ignoreLast
  {
    var pos := 64 * (first + block) + bit;
    forall i: nat, j: nat | i < blocks2 && j < 64
      ensures value2[i][j] == (lo <= 64 * (first + i) + j < pos && full[..pos][64 * (first + i) + j])
    {
      assert value[i][j] == (lo <= 64 * (first + i) + j < hi && full[64 * (first + i) + j]);
    }
  }

  lemma StoresKey(sequence: seq<Bits>, padding: nat, block: nat, bit: nat, value: seq<Bits>)
    requires Padded(sequence, padding) && bit < 64 && block < |sequence|
    requires 64 * block + bit <= |Key(sequence, padding)|
    requires value == sequence[block..][0 := IgnoreFirst(sequence[block], bit)]
      || (bit == 0 && value == sequence[block..])
    ensures Stores(value, |sequence| - block, block, 64 * block + bit, |Key(sequence, padding)|, Key(sequence, padding))
  {
    forall i: nat, j: nat | i < |sequence| - block && j < 64
      ensures value[i][j] == (64 * block + bit <= 64 * (block + i) + j < |Key(sequence, padding)| && Key(sequence, padding)[64 * (block + i) + j])
    {
      KeyBit(sequence, padding, block + i, j);
    }
  }

  // ----- runs -----

  /** A sequence with its padding and the item to store under it. */
  datatype Entry = Entry(sequence: seq<Bits>, paddingBits: nat, item: nat)

  /** The map after the entries have been written one after the other. */
  ghost function Replayed(entries: seq<Entry>): map<Bits, nat>
    requires forall i :: 0 <= i < |entries| ==> Padded(entries[i].sequence, entries[i].paddingBits)
  {
    if entries == [] then map[] else
      var last := entries[|entries| - 1];
      assert Padded(last.sequence, last.paddingBits);
      Replayed(entries[..|entries| - 1])[Key(last.sequence, last.paddingBits) := last.item]
  }

  /** The loop of the repository's own check (CompressedSequenceSet.cpp:399-441): whatever is stored, with at least
      one padding bit, trie and map agree. */
  method Replay(entries: seq<Entry>) returns (t: CompressedSequenceTrie)
    requires |entries| > 0
    requires forall i :: 0 <= i < |entries| ==> Padded(entries[i].sequence, entries[i].paddingBits) && entries[i].paddingBits > 0
    ensures t.Valid() && Items(t.Payloads()) == Replayed(entries)
  {
    hide Padded, Items, CompressedSequenceTrie.Payloads, CompressedSequenceTrie.Valid, Key, CompressedSequenceTrie.Leaf, CompressedSequenceTrie.Own;
    var e := entries[0];
    PaddedWords(e.sequence, e.paddingBits);
    t := new CompressedSequenceTrie(e.sequence, e.paddingBits);
    t.LeafIs(Key(e.sequence, e.paddingBits), 0);
    NoItems(Key(e.sequence, e.paddingBits));
    assert Replayed(entries[..0]) == map[];
    for i := 0 to |entries|
      invariant t.Valid() && t.Start() == 0 && fresh(t.Repr)
      invariant Items(t.Payloads()) == Replayed(entries[..i])
    {
      var ok, previous := t.Store(entries[i].sequence, entries[i].paddingBits, entries[i].item);
      assert entries[..i + 1][..i] == entries[..i];
    }
    assert entries[..|entries|] == entries;
  }

  lemma NoItems(key: Bits)
    ensures Items(map[key := None]) == map[]
  {
  }

  /** Without padding insertion can fail: a key of one word that is the first word of a stored key of two. */
  method PaddingZeroFails() returns (ok: bool)
    ensures !ok
  {
    var w: Bits := seq(64, _ => false);
    var long, short := [w, w], [w];
    var t := new CompressedSequenceTrie(long, 1);
    t.LeafIs(Key(long, 1), 0);
    assert Key(short, 0) <= Key(long, 1);
    t.RootFits(Key(short, 0));
    var slot;
    ok, slot := t.Insert(short, 0);
  }
}
