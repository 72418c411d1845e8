/**
 The slot configuration of a cluster node. Who serves a slot is recorded twice: in the
 slot table, and in a bitmap kept with every node. The two always agree; and observers
 that hear the same claims end with the same table, whatever the order.
 */
module ClusterSlots {
  import opened Common
  import opened Words

  const SLOTS: nat := 16384

  type NodeId = nat

  // --- Bitmaps ---

  type Bitmap = s: seq<byte> | |s| == 2048 witness seq(2048, i => 0)

  /** `bitmapTestBit`: `(bitmap[pos/8] & (1 << (pos & 7))) != 0`. */
  predicate TestBit(bm: Bitmap, pos: nat)
    requires pos < SLOTS
  {
    And(bm[pos / 8], Pow2(pos % 8)) != 0
  }

  lemma {:induction false} AndBit(v: nat, i: nat)
    ensures And(v, Pow2(i)) != 0 <==> Bit(v, i)
    decreases i
  {
    AndStep(v, Pow2(i));
    if i > 0 {
      AndBit(v / 2, i - 1);
    } else {
      assert And(v / 2, 0) == 0;
    }
  }

  lemma {:induction false} BitPow2(i: nat, j: nat)
    ensures Bit(Pow2(i), j) <==> i == j
    decreases i
  {
    if i == 0 {
      if j > 0 {
        BitZero(j - 1);
      }
    } else if j > 0 {
      BitPow2(i - 1, j - 1);
    }
  }

  lemma SmallPow2(i: nat)
    requires i < 8
    ensures Pow2(i) < 256
  {
    Pow2Monotone(i, 7);
    assert Pow2(7) == 128;
  }

  /** `bitmap[pos/8] |= 1 << (pos & 7)`. */
  function SetBit(bm: Bitmap, pos: nat): Bitmap
    requires pos < SLOTS
  {
    SmallPow2(pos % 8);
    assert Pow2(8) == 256;
    OrBound(8, bm[pos / 8], Pow2(pos % 8));
    bm[pos / 8 := Or(bm[pos / 8], Pow2(pos % 8))]
  }

  /** `bitmap[pos/8] &= ~(1 << (pos & 7))`. */
  function ClearBit(bm: Bitmap, pos: nat): Bitmap
    requires pos < SLOTS
  {
    SmallPow2(pos % 8);
    AndBound(bm[pos / 8], 255 - Pow2(pos % 8));
    bm[pos / 8 := And(bm[pos / 8], 255 - Pow2(pos % 8))]
  }

  lemma SamePosition(p: nat, q: nat)
    ensures p / 8 == q / 8 && p % 8 == q % 8 <==> p == q
  {
  }

  lemma SetBitTest(bm: Bitmap, p: nat, q: nat)
    requires p < SLOTS && q < SLOTS
    ensures TestBit(SetBit(bm, p), q) <==> q == p || TestBit(bm, q)
  {
    hide And, Or, Bit, Pow2;
    var b := bm[p / 8];
    AndBit(bm[q / 8], q % 8);
    AndBit(Or(b, Pow2(p % 8)), q % 8);
    BitOr(b, Pow2(p % 8), q % 8);
    BitPow2(p % 8, q % 8);
    SamePosition(p, q);
  }

  lemma ClearBitTest(bm: Bitmap, p: nat, q: nat)
    requires p < SLOTS && q < SLOTS
    ensures TestBit(ClearBit(bm, p), q) <==> q != p && TestBit(bm, q)
  {
    var b := bm[p / 8];
    SmallPow2(p % 8);
    assert Pow2(8) == 256;
    hide And, Or, Bit, Pow2;
    AndBit(bm[q / 8], q % 8);
    AndBit(And(b, 255 - Pow2(p % 8)), q % 8);
    BitAnd(b, 255 - Pow2(p % 8), q % 8);
    BitComplement(8, Pow2(p % 8), q % 8);
    BitPow2(p % 8, q % 8);
    SamePosition(p, q);
  }

  /** The number of bits set below position `k`. */
  function CountBits(bm: Bitmap, k: nat): nat
    requires k <= SLOTS
  {
    if k == 0 then 0 else CountBits(bm, k - 1) + Digit(TestBit(bm, k - 1))
  }

  lemma {:induction false} CountBitsSame(a: Bitmap, b: Bitmap, k: nat)
    requires k <= SLOTS && forall q: nat | q < k :: TestBit(a, q) == TestBit(b, q)
    ensures CountBits(a, k) == CountBits(b, k)
  {
    hide TestBit;
    if k > 0 {
      CountBitsSame(a, b, k - 1);
    }
  }

  lemma {:induction false} CountBitsFlip(a: Bitmap, b: Bitmap, p: nat, k: nat)
    requires p < k <= SLOTS && TestBit(a, p) && !TestBit(b, p)
    requires forall q: nat | q < k && q != p :: TestBit(a, q) == TestBit(b, q)
    ensures CountBits(a, k) == CountBits(b, k) + 1
  {
    hide TestBit;
    if p == k - 1 {
      CountBitsSame(a, b, k - 1);
    } else {
      CountBitsFlip(a, b, p, k - 1);
    }
  }

  // --- Nodes and the table ---

  datatype Node = Node(bitmap: Bitmap, numslots: nat, configEpoch: nat)

  /** `clusterNodeSetSlotBit`. */
  function WithSlot(n: Node, j: nat): Node
    requires j < SLOTS
  {
    n.(bitmap := SetBit(n.bitmap, j), numslots := n.numslots + Digit(!TestBit(n.bitmap, j)))
  }

  /** `clusterNodeClearSlotBit`. */
  function WithoutSlot(n: Node, j: nat): Node
    requires j < SLOTS && (TestBit(n.bitmap, j) ==> n.numslots > 0)
  {
    n.(bitmap := ClearBit(n.bitmap, j), numslots := n.numslots - Digit(TestBit(n.bitmap, j)))
  }

  ghost predicate CountOk(n: Node) {
    n.numslots == CountBits(n.bitmap, SLOTS)
  }

  lemma WithSlotOk(n: Node, j: nat)
    requires j < SLOTS && CountOk(n)
    ensures CountOk(WithSlot(n, j))
    ensures forall q: nat | q < SLOTS :: TestBit(WithSlot(n, j).bitmap, q) <==> q == j || TestBit(n.bitmap, q)
  {
    hide TestBit, SetBit, CountBits;
    forall q: nat | q < SLOTS
      ensures TestBit(SetBit(n.bitmap, j), q) <==> q == j || TestBit(n.bitmap, q)
    {
      SetBitTest(n.bitmap, j, q);
    }
    if TestBit(n.bitmap, j) {
      CountBitsSame(SetBit(n.bitmap, j), n.bitmap, SLOTS);
    } else {
      CountBitsFlip(SetBit(n.bitmap, j), n.bitmap, j, SLOTS);
    }
  }

  lemma WithoutSlotOk(n: Node, j: nat)
    requires j < SLOTS && CountOk(n)
    ensures TestBit(n.bitmap, j) ==> n.numslots > 0
    ensures CountOk(WithoutSlot(n, j))
    ensures forall q: nat | q < SLOTS :: TestBit(WithoutSlot(n, j).bitmap, q) <==> q != j && TestBit(n.bitmap, q)
  {
    hide TestBit, ClearBit, CountBits;
    forall q: nat | q < SLOTS
      ensures TestBit(ClearBit(n.bitmap, j), q) <==> q != j && TestBit(n.bitmap, q)
    {
      ClearBitTest(n.bitmap, j, q);
    }
    if TestBit(n.bitmap, j) {
      CountBitsFlip(n.bitmap, ClearBit(n.bitmap, j), j, SLOTS);
    } else {
      CountBitsSame(n.bitmap, ClearBit(n.bitmap, j), SLOTS);
    }
  }

  /** The table says a node serves a slot exactly when the node's bitmap does, and the counts are right. */
  ghost predicate Agree(slots: seq<Option<NodeId>>, nodes: map<NodeId, Node>) {
    && |slots| == SLOTS
    && (forall n, j: nat | n in nodes && j < SLOTS :: slots[j] == Some(n) <==> TestBit(nodes[n].bitmap, j))
    && (forall j: nat | j < SLOTS && slots[j].Some? :: slots[j].value in nodes)
    && (forall n | n in nodes :: CountOk(nodes[n]))
  }

  lemma AddSlotAgrees(slots: seq<Option<NodeId>>, nodes: map<NodeId, Node>, n: NodeId, j: nat)
    requires Agree(slots, nodes) && n in nodes && j < SLOTS && slots[j].None?
    ensures Agree(slots[j := Some(n)], nodes[n := WithSlot(nodes[n], j)])
  {
    hide TestBit, CountOk, WithSlot;
    WithSlotOk(nodes[n], j);
    var slots', nodes' := slots[j := Some(n)], nodes[n := WithSlot(nodes[n], j)];
    forall m, q: nat | m in nodes' && q < SLOTS
      ensures slots'[q] == Some(m) <==> TestBit(nodes'[m].bitmap, q)
    {
      assert slots[q] == Some(m) <==> TestBit(nodes[m].bitmap, q);
    }
  }

  lemma DelSlotAgrees(slots: seq<Option<NodeId>>, nodes: map<NodeId, Node>, j: nat)
    requires Agree(slots, nodes) && j < SLOTS && slots[j].Some?
    ensures var n := slots[j].value;
            && n in nodes
            && TestBit(nodes[n].bitmap, j)
            && nodes[n].numslots > 0
            && Agree(slots[j := None], nodes[n := WithoutSlot(nodes[n], j)])
  {
    hide TestBit, CountOk, WithoutSlot;
    var n := slots[j].value;
    WithoutSlotOk(nodes[n], j);
    var slots', nodes' := slots[j := None], nodes[n := WithoutSlot(nodes[n], j)];
    forall m, q: nat | m in nodes' && q < SLOTS
      ensures slots'[q] == Some(m) <==> TestBit(nodes'[m].bitmap, q)
    {
      assert slots[q] == Some(m) <==> TestBit(nodes[m].bitmap, q);
    }
  }

  // --- Claims, as values ---

  /** A master's statement of the slots it serves, as a PING or PONG carries it. */
  datatype Claim = Claim(node: NodeId, epoch: nat, slots: Bitmap)

  /** What an observer knows: the owner of every slot, and the last epoch seen of every node. */
  datatype View = View(slots: seq<Option<NodeId>>, epochs: map<NodeId, nat>)

  ghost predicate ViewOk(v: View) {
    && |v.slots| == SLOTS
    && forall j: nat | j < SLOTS && v.slots[j].Some? :: v.slots[j].value in v.epochs
  }

  /** The slot is claimed, and is unassigned or served by another node under an older epoch. */
  predicate Rebinds(v: View, c: Claim, j: nat)
    requires j < SLOTS && |v.slots| == SLOTS && (v.slots[j].Some? ==> v.slots[j].value in v.epochs)
  {
    && TestBit(c.slots, j)
    && v.slots[j] != Some(c.node)
    && (v.slots[j].None? || v.epochs[v.slots[j].value] < c.epoch)
  }

  function RaiseEpoch(v: View, n: NodeId, epoch: nat): View
    requires n in v.epochs
  {
    if epoch > v.epochs[n] then v.(epochs := v.epochs[n := epoch]) else v
  }

  /** The table after the slots a claim wins have changed hands. */
  ghost predicate Rebound(v: View, c: Claim, slots: seq<Option<NodeId>>)
    requires ViewOk(v)
  {
    && |slots| == SLOTS
    && forall j: nat | j < SLOTS :: slots[j] == if Rebinds(v, c, j) then Some(c.node) else v.slots[j]
  }

  /** The view after hearing a claim. */
  ghost predicate Observed(v: View, c: Claim, v': View)
    requires ViewOk(v) && c.node in v.epochs
  {
    v'.epochs == RaiseEpoch(v, c.node, c.epoch).epochs && Rebound(RaiseEpoch(v, c.node, c.epoch), c, v'.slots)
  }

  // --- The handlers ---

  class Cluster {
    var slots: seq<Option<NodeId>>
    var nodes: map<NodeId, Node>

    ghost predicate Valid()
      reads this
    {
      Agree(slots, nodes)
    }

    ghost function Known(): View
      reads this
    {
      View(slots, map n | n in nodes :: nodes[n].configEpoch)
    }

    constructor ()
      ensures Valid() && nodes == map[] && forall j | 0 <= j < SLOTS :: slots[j] == None
    {
      slots := seq(SLOTS, i => None);
      nodes := map[];
    }

    /** `clusterAddSlot`. */
    method AddSlot(n: NodeId, j: nat) returns (ok: bool)
      requires Valid() && n in nodes && j < SLOTS
      modifies this
      ensures Valid() && ok == old(slots)[j].None?
      ensures slots == if ok then old(slots)[j := Some(n)] else old(slots)
      ensures Known().epochs == old(Known().epochs)
    {
      if slots[j].Some? {
        return false;
      }
      AddSlotAgrees(slots, nodes, n, j);
      hide WithSlot, Agree;
      nodes := nodes[n := WithSlot(nodes[n], j)];
      slots := slots[j := Some(n)];
      assert Known().epochs == old(Known().epochs) by {
        WithSlotEpoch(old(nodes), n, j);
      }
      return true;
    }

    /** `clusterDelSlot`: the assertion that the owner's bit is set never fails. */
    method DelSlot(j: nat) returns (ok: bool)
      requires Valid() && j < SLOTS
      modifies this
      ensures Valid() && ok == old(slots)[j].Some?
      ensures slots == old(slots)[j := None]
      ensures Known().epochs == old(Known().epochs)
    {
      if slots[j].None? {
        assert slots[j := None] == slots;
        return false;
      }
      var n := slots[j].value;
      DelSlotAgrees(slots, nodes, j);
      assert TestBit(nodes[n].bitmap, j);
      hide WithoutSlot, Agree, TestBit;
      nodes := nodes[n := WithoutSlot(nodes[n], j)];
      slots := slots[j := None];
      assert Known().epochs == old(Known().epochs) by {
        WithoutSlotEpoch(old(nodes), n, j);
      }
      return true;
    }

    /** `clusterDelNodeSlots`, which counts every slot it looks at. */
    method DelNodeSlots(n: NodeId) returns (deleted: nat)
      requires Valid() && n in nodes
      modifies this
      ensures Valid() && Known().epochs == old(Known().epochs)
      ensures forall j: nat | j < SLOTS :: slots[j] == if old(slots)[j] == Some(n) then None else old(slots)[j]
      ensures deleted == SLOTS
    {
      hide TestBit, CountOk;
      deleted := 0;
      var j := 0;
      while j < SLOTS
        invariant 0 <= j <= SLOTS && deleted == j && Valid() && Known().epochs == old(Known().epochs)
        invariant forall q: nat | q < SLOTS ::
                    slots[q] == if q < j && old(slots)[q] == Some(n) then None else old(slots)[q]
      {
        KeysKept(this, old(Known().epochs));
        if TestBit(nodes[n].bitmap, j) {
          var _ := DelSlot(j);
        }
        deleted := deleted + 1;
        j := j + 1;
      }
    }

    /** `clusterDelNode`: its slots become unassigned and the node is forgotten. */
    method DelNode(n: NodeId)
      requires Valid() && n in nodes
      modifies this
      ensures Valid() && Known().epochs == old(Known().epochs) - {n}
      ensures forall j: nat | j < SLOTS :: slots[j] == if old(slots)[j] == Some(n) then None else old(slots)[j]
    {
      hide TestBit, CountOk;
      var j := 0;
      while j < SLOTS
        invariant 0 <= j <= SLOTS && Valid() && Known().epochs == old(Known().epochs)
        invariant forall q: nat | q < SLOTS ::
                    slots[q] == if q < j && old(slots)[q] == Some(n) then None else old(slots)[q]
      {
        if slots[j] == Some(n) {
          var _ := DelSlot(j);
        }
        j := j + 1;
      }
      KeysKept(this, old(Known().epochs));
      nodes := nodes - {n};
    }

    /** `CLUSTER SETSLOT <slot> NODE <id>`. */
    method SetSlotNode(j: nat, n: NodeId)
      requires Valid() && n in nodes && j < SLOTS
      modifies this
      ensures Valid() && Known().epochs == old(Known().epochs)
      ensures slots == old(slots)[j := Some(n)]
    {
      assert |slots| == SLOTS;
      KeysKept(this, Known().epochs);
      hide Agree, TestBit, CountOk;
      var _ := DelSlot(j);
      KeysKept(this, old(Known().epochs));
      var _ := AddSlot(n, j);
    }

    /** The winner of an election takes over all slots of its master under the election's epoch. */
    method TakeOver(me: NodeId, oldmaster: NodeId, epoch: nat)
      requires Valid() && me in nodes && oldmaster in nodes && me != oldmaster
      modifies this
      ensures Valid() && Known().epochs == old(Known().epochs)[me := epoch]
      ensures forall j: nat | j < SLOTS ::
                slots[j] == if old(slots)[j] == Some(oldmaster) then Some(me) else old(slots)[j]
    {
      hide TestBit, CountOk;
      var j := 0;
      while j < SLOTS
        invariant 0 <= j <= SLOTS && Valid() && Known().epochs == old(Known().epochs)
        invariant forall q: nat | q < SLOTS ::
                    slots[q] == if q < j && old(slots)[q] == Some(oldmaster) then Some(me) else old(slots)[q]
      {
        KeysKept(this, old(Known().epochs));
        if TestBit(nodes[oldmaster].bitmap, j) {
          SetSlotNode(j, me);
        }
        j := j + 1;
      }
      KeysKept(this, old(Known().epochs));
      SetEpoch(me, epoch);
    }

    method SetEpoch(n: NodeId, epoch: nat)
      requires Valid() && n in nodes
      modifies this`nodes
      ensures Valid() && Known().epochs == old(Known().epochs)[n := epoch]
      ensures forall m | m in nodes && m in old(nodes) :: nodes[m].bitmap == old(nodes)[m].bitmap
    {
      hide TestBit, CountBits;
      nodes := nodes[n := nodes[n].(configEpoch := epoch)];
    }

    /**
     `clusterUpdateSlotsConfigWith`: every slot the claim wins is rebound to the sender.
     The result tells whether a slot was taken from `curmaster`.
     */
    method UpdateSlotsConfigWith(sender: NodeId, epoch: nat, claimed: Bitmap, curmaster: Option<NodeId>)
      returns (taken: bool)
      requires Valid() && sender in nodes
      modifies this
      ensures Valid() && Known().epochs == old(Known().epochs)
      ensures ViewOk(old(Known()))
      ensures Rebound(old(Known()), Claim(sender, epoch, claimed), slots)
      ensures taken <==> exists j: nat :: j < SLOTS && old(slots)[j] == curmaster &&
                                         Rebinds(old(Known()), Claim(sender, epoch, claimed), j)
      ensures forall j: nat | j < SLOTS ::
                && (slots[j] == Some(sender) <==>
                      old(slots)[j] == Some(sender) ||
                      (TestBit(claimed, j) && (old(slots)[j].None? || old(Known()).epochs[old(slots)[j].value] < epoch)))
                && (slots[j] == Some(sender) || slots[j] == old(slots)[j])
    {
      hide TestBit, CountOk;
      ghost var v, c := Known(), Claim(sender, epoch, claimed);
      taken := false;
      var j := 0;
      while j < SLOTS
        invariant 0 <= j <= SLOTS && Valid() && Known().epochs == v.epochs
        invariant forall q: nat | q < SLOTS :: slots[q] == if q < j && Rebinds(v, c, q) then Some(sender) else v.slots[q]
        invariant taken <==> exists q: nat :: q < j && v.slots[q] == curmaster && Rebinds(v, c, q)
      {
        KeysKept(this, v.epochs);
        if TestBit(claimed, j) && slots[j] != Some(sender) {
          if slots[j].None? || nodes[slots[j].value].configEpoch < epoch {
            assert Rebinds(v, c, j);
            if slots[j] == curmaster {
              taken := true;
            }
            SetSlotNode(j, sender);
          }
        }
        j := j + 1;
      }
    }

    /** The slot part of processing a PING or PONG from a master. */
    method ReceiveClaim(sender: NodeId, epoch: nat, claimed: Bitmap, curmaster: Option<NodeId>) returns (taken: bool)
      requires Valid() && sender in nodes
      modifies this
      ensures Valid() && ViewOk(old(Known()))
      ensures Observed(old(Known()), Claim(sender, epoch, claimed), Known())
      ensures sender in Known().epochs && Known().epochs[sender] >= epoch
      ensures taken <==> exists j: nat :: j < SLOTS && old(slots)[j] == curmaster != slots[j]
    {
      hide TestBit, CountOk;
      if epoch > nodes[sender].configEpoch {
        SetEpoch(sender, epoch);
        KeysKept(this, Known().epochs);
      }
      var dirty := nodes[sender].bitmap != claimed;
      taken := false;
      if dirty {
        taken := UpdateSlotsConfigWith(sender, epoch, claimed, curmaster);
      }
    }
  }

  lemma KeysKept(c: Cluster, epochs: map<NodeId, nat>)
    requires c.Known().epochs == epochs
    ensures c.nodes.Keys == epochs.Keys
    ensures forall n | n in epochs :: c.nodes[n].configEpoch == epochs[n]
  {
    assert c.Known().epochs.Keys == c.nodes.Keys;
  }

  lemma WithSlotEpoch(nodes: map<NodeId, Node>, n: NodeId, j: nat)
    requires n in nodes && j < SLOTS
    ensures WithSlot(nodes[n], j).configEpoch == nodes[n].configEpoch
  {
  }

  lemma WithoutSlotEpoch(nodes: map<NodeId, Node>, n: NodeId, j: nat)
    requires n in nodes && j < SLOTS && (TestBit(nodes[n].bitmap, j) ==> nodes[n].numslots > 0)
    ensures WithoutSlot(nodes[n], j).configEpoch == nodes[n].configEpoch
  {
  }

  // --- Convergence ---

  /** The views of an observer that hears the claims one after the other. */
  ghost predicate Hears(views: seq<View>, claims: seq<Claim>) {
    && |views| == |claims| + 1
    && (forall i | 0 <= i < |views| :: ViewOk(views[i]))
    && (forall i | 0 <= i < |claims| :: claims[i].node in views[i].epochs)
    && (forall i | 0 <= i < |claims| :: Observed(views[i], claims[i], views[i + 1]))
  }

  /** One claim per master, under distinct epochs. */
  ghost predicate Compatible(claims: seq<Claim>) {
    forall c, d | c in claims && d in claims :: c.node == d.node || c.epoch == d.epoch ==> c == d
  }

  /** An empty table, and no epoch newer than the one its node claims. */
  ghost predicate StartsEmpty(v: View, claims: seq<Claim>) {
    && (forall j: nat | j < SLOTS && j < |v.slots| :: v.slots[j] == None)
    && (forall c | c in claims && c.node in v.epochs :: v.epochs[c.node] <= c.epoch)
  }

  /** The claims made for slot `j`. */
  ghost predicate For(c: Claim, j: nat) {
    j < SLOTS && TestBit(c.slots, j)
  }

  /** `o` is the claimant of highest epoch for slot `j`, if anyone claims it. */
  ghost predicate IsOwner(claims: seq<Claim>, j: nat, o: Option<NodeId>) {
    match o
    case None => forall c | c in claims :: !For(c, j)
    case Some(n) =>
      exists c :: c in claims && c.node == n && For(c, j) && forall d | d in claims && For(d, j) :: d.epoch <= c.epoch
  }

  /** What the first `i` claims have made of the view. */
  ghost predicate Settled(v0: View, v: View, claims: seq<Claim>, i: nat)
    requires i <= |claims|
  {
    && ViewOk(v)
    && v.epochs.Keys == v0.epochs.Keys
    && (forall j: nat | j < SLOTS :: IsOwner(claims[..i], j, v.slots[j]))
    && (forall c | c in claims[..i] :: c.node in v.epochs && v.epochs[c.node] == c.epoch)
    && (forall n | n in v0.epochs && (forall c | c in claims[..i] :: c.node != n) :: v.epochs[n] == v0.epochs[n])
  }

  lemma TakeOneMore<T>(s: seq<T>, i: nat, x: T)
    requires i < |s|
    ensures x in s[..i + 1] <==> x in s[..i] || x == s[i]
  {
    assert s[..i + 1] == s[..i] + [s[i]];
  }

  /** Hearing one more claim: each slot goes to the better of its owner and the claimant. */
  lemma OwnerStep(claims: seq<Claim>, i: nat, j: nat, o: Option<NodeId>, o': Option<NodeId>, oldest: nat)
    requires i < |claims| && Compatible(claims) && IsOwner(claims[..i], j, o) && j < SLOTS
    requires o.Some? ==> forall c | c in claims[..i] && c.node == o.value :: c.epoch == oldest
    requires var c := claims[i];
             o' == if TestBit(c.slots, j) && o != Some(c.node) && (o.None? || oldest < c.epoch)
                   then Some(c.node) else o
    ensures IsOwner(claims[..i + 1], j, o')
  {
    hide TestBit;
    var c := claims[i];
    forall d
      ensures d in claims[..i + 1] <==> d in claims[..i] || d == c
    {
      TakeOneMore(claims, i, d);
    }
    if o.Some? {
      var w :| w in claims[..i] && w.node == o.value && For(w, j) &&
               forall d | d in claims[..i] && For(d, j) :: d.epoch <= w.epoch;
      assert w in claims[..i + 1] && c in claims[..i + 1];
      assert w in claims && c in claims;
    }
    assert c in claims[..i + 1];
  }

  lemma SettledStep(v0: View, v: View, claims: seq<Claim>, i: nat, v': View)
    requires i < |claims| && Compatible(claims) && Settled(v0, v, claims, i)
    requires claims[i].node in v.epochs && v0.epochs.Keys == v.epochs.Keys
    requires v0.epochs[claims[i].node] <= claims[i].epoch
    requires Observed(v, claims[i], v')
    ensures Settled(v0, v', claims, i + 1)
  {
    hide TestBit, IsOwner;
    var c := claims[i];
    forall d
      ensures d in claims[..i + 1] <==> d in claims[..i] || d == c
    {
      TakeOneMore(claims, i, d);
    }
    assert forall d | d in claims[..i] :: d in claims;
    var u := RaiseEpoch(v, c.node, c.epoch);
    assert c in claims;
    assert u.epochs[c.node] == c.epoch by {
      if d :| d in claims[..i] && d.node == c.node {
        assert d == c;
      }
    }
    forall j: nat | j < SLOTS
      ensures IsOwner(claims[..i + 1], j, v'.slots[j])
    {
      var o := v.slots[j];
      var oldest := if o.Some? then u.epochs[o.value] else 0;
      assert IsOwner(claims[..i], j, o);
      OwnerStep(claims, i, j, o, v'.slots[j], oldest);
    }
  }

  lemma {:induction false} HearingSettles(views: seq<View>, claims: seq<Claim>, i: nat)
    requires Hears(views, claims) && Compatible(claims) && StartsEmpty(views[0], claims) && i <= |claims|
    ensures Settled(views[0], views[i], claims, i)
  {
    hide Settled, Observed, TestBit;
    if i == 0 {
      SettledAtStart(views[0], claims);
    } else {
      HearingSettles(views, claims, i - 1);
      assert Observed(views[i - 1], claims[i - 1], views[i - 1 + 1]);
      SettledKeys(views[0], views[i - 1], claims, i - 1);
      assert claims[i - 1] in claims;
      SettledStep(views[0], views[i - 1], claims, i - 1, views[i]);
    }
  }

  lemma SettledKeys(v0: View, v: View, claims: seq<Claim>, i: nat)
    requires i <= |claims| && Settled(v0, v, claims, i)
    ensures v.epochs.Keys == v0.epochs.Keys
  {
  }

  lemma SettledAtStart(v: View, claims: seq<Claim>)
    requires ViewOk(v) && StartsEmpty(v, claims)
    ensures Settled(v, v, claims, 0)
  {
    assert claims[..0] == [];
  }

  lemma OwnersUnique(claims: seq<Claim>, others: seq<Claim>, j: nat, o: Option<NodeId>, o': Option<NodeId>)
    requires Compatible(claims) && (forall c :: c in claims <==> c in others)
    requires IsOwner(claims, j, o) && IsOwner(others, j, o')
    ensures o == o'
  {
    if o.Some? && o'.Some? {
      var c :| c in claims && c.node == o.value && For(c, j) && forall d | d in claims && For(d, j) :: d.epoch <= c.epoch;
      var c' :| c' in others && c'.node == o'.value && For(c', j) && forall d | d in others && For(d, j) :: d.epoch <= c'.epoch;
    }
  }

  /** After hearing all claims, each slot belongs to its claimant of highest epoch. */
  lemma HighestEpochOwns(views: seq<View>, claims: seq<Claim>, j: nat)
    requires Hears(views, claims) && Compatible(claims) && StartsEmpty(views[0], claims) && j < SLOTS
    ensures |views[|claims|].slots| == SLOTS && IsOwner(claims, j, views[|claims|].slots[j])
  {
    HearingSettles(views, claims, |claims|);
    assert claims[..|claims|] == claims;
  }

  /** Two observers that hear the same claims, in any order and with repeats, end with the same table. */
  lemma ObserversConverge(views: seq<View>, claims: seq<Claim>, views': seq<View>, claims': seq<Claim>)
    requires Hears(views, claims) && Compatible(claims) && StartsEmpty(views[0], claims)
    requires Hears(views', claims') && Compatible(claims') && StartsEmpty(views'[0], claims')
    requires forall c :: c in claims <==> c in claims'
    ensures views[|claims|].slots == views'[|claims'|].slots
  {
    hide IsOwner;
    assert |views| == |claims| + 1 && |views'| == |claims'| + 1;
    hide Hears;
    var a, b := views[|claims|].slots, views'[|claims'|].slots;
    HighestEpochOwns(views, claims, 0);
    HighestEpochOwns(views', claims', 0);
    forall j: nat | j < SLOTS
      ensures a[j] == b[j]
    {
      HighestEpochOwns(views, claims, j);
      HighestEpochOwns(views', claims', j);
      OwnersUnique(claims, claims', j, a[j], b[j]);
    }
  }
}
