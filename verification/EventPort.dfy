/**
 The event-port back end of the event loop (`ae_evport.c`) and the registration of file
 events that it relies on (`ae.c`). The kernel forgets a descriptor when it reports an
 event for it, so the loop keeps the reported ones in a list of its own, pending, until it
 polls again.

 `port_associate` may fail when an event is added; elsewhere a failure ends the process.
 */
module EventPort {
  import opened Common

  /** AE_READABLE and AE_WRITABLE. */
  datatype Mask = Mask(readable: bool, writable: bool)

  const NONE := Mask(false, false)

  function Or(a: Mask, b: Mask): Mask {
    Mask(a.readable || b.readable, a.writable || b.writable)
  }

  /** `a & ~b`. */
  function Minus(a: Mask, b: Mask): Mask {
    Mask(a.readable && !b.readable, a.writable && !b.writable)
  }

  /** MAX_EVENT_BATCHSZ. */
  const BATCH: nat := 512

  /** A slot of `pending_fds` and `pending_masks`; a deleted one has no descriptor. */
  datatype Pending = Pending(fd: Option<nat>, mask: Mask)

  /**
   The loop's table of masks and its highest descriptor, the pending slots in use, and
   what the kernel has associated with the port: for each descriptor the mask given with it.
   */
  datatype Loop = Loop(events: seq<Mask>, maxfd: int, pending: seq<Pending>, kernel: map<nat, Mask>)

  // --- The invariant ---

  ghost predicate Slotted(pending: seq<Pending>, fd: nat) {
    exists i :: 0 <= i < |pending| && pending[i].fd == Some(fd)
  }

  predicate DistinctSlots(pending: seq<Pending>) {
    forall i, j | 0 <= i < j < |pending| && pending[i].fd.Some? :: pending[i].fd != pending[j].fd
  }

  ghost predicate IsPending(l: Loop, fd: nat) {
    Slotted(l.pending, fd)
  }

  /** The pending slots hold different registered descriptors, with the masks of the loop. */
  ghost predicate PendingOk(l: Loop) {
    && |l.pending| <= BATCH
    && (forall i | 0 <= i < |l.pending| && l.pending[i].fd.Some? ::
          l.pending[i].fd.value < |l.events| && l.pending[i].mask == l.events[l.pending[i].fd.value] != NONE)
    && DistinctSlots(l.pending)
  }

  ghost predicate KernelOk(l: Loop) {
    forall fd | fd in l.kernel :: fd < |l.events| && l.kernel[fd] == l.events[fd] != NONE
  }

  /** Every registered descriptor is in exactly one of the two places. */
  ghost predicate Placed(l: Loop) {
    forall fd: nat | fd < |l.events| && l.events[fd] != NONE :: fd in l.kernel <==> !IsPending(l, fd)
  }

  predicate MaxOk(l: Loop) {
    && -1 <= l.maxfd < |l.events|
    && (l.maxfd >= 0 ==> l.events[l.maxfd] != NONE)
    && forall fd | l.maxfd < fd < |l.events| :: l.events[fd] == NONE
  }

  ghost predicate Inv(l: Loop) {
    PendingOk(l) && KernelOk(l) && Placed(l) && MaxOk(l)
  }

  /** What the invariant says of one descriptor. */
  lemma Placement(l: Loop, fd: nat)
    requires Inv(l) && fd < |l.events|
    ensures l.events[fd] == NONE <==> fd !in l.kernel && !IsPending(l, fd)
    ensures !(fd in l.kernel && IsPending(l, fd))
    ensures fd in l.kernel ==> l.kernel[fd] == l.events[fd]
    ensures forall i | 0 <= i < |l.pending| && l.pending[i].fd == Some(fd) :: l.pending[i].mask == l.events[fd]
  {
  }

  // --- The operations, as functions ---

  /** The slot of a pending descriptor, as `aeApiLookupPending` finds it. */
  function Lookup(pending: seq<Pending>, fd: nat): (r: Option<nat>)
    ensures r.Some? ==> r.value < |pending| && pending[r.value].fd == Some(fd)
    ensures r.None? ==> forall i | 0 <= i < |pending| :: pending[i].fd != Some(fd)
  {
    if pending == [] then None
    else if pending[0].fd == Some(fd) then Some(0)
    else
      var r := Lookup(pending[1..], fd);
      if r.Some? then
        assert pending[1..][r.value] == pending[r.value + 1];
        Some(r.value + 1)
      else
        assert forall i | 0 < i < |pending| :: pending[i] == pending[1..][i - 1];
        None
  }

  /** `aeCreateFileEvent` with `aeApiAddEvent`; `ok` says whether the kernel accepts an association. */
  function Create(l: Loop, fd: nat, mask: Mask, ok: bool): Loop {
    if fd >= |l.events| then l
    else
      var full := Or(mask, l.events[fd]);
      var slot := Lookup(l.pending, fd);
      if slot.None? && !ok then l
      else
        var l1 :=
          if slot.Some? then
            l.(pending := l.pending[slot.value := Pending(Some(fd), Or(l.pending[slot.value].mask, full))])
          else l.(kernel := l.kernel[fd := full]);
        l1.(events := l.events[fd := Or(l.events[fd], mask)], maxfd := if fd > l.maxfd then fd else l.maxfd)
  }

  /** The highest registered descriptor that is not above `j`, or -1. */
  function Highest(events: seq<Mask>, j: int): (r: int)
    requires -1 <= j < |events|
    ensures -1 <= r <= j && (r >= 0 ==> events[r] != NONE) && forall i | r < i <= j :: events[i] == NONE
    decreases j + 1
  {
    if j < 0 || events[j] != NONE then j else Highest(events, j - 1)
  }

  /** `aeDeleteFileEvent` with `aeApiDelEvent`. */
  function Delete(l: Loop, fd: nat, mask: Mask): Loop
    requires l.maxfd < |l.events|
  {
    if fd >= |l.events| || l.events[fd] == NONE then l
    else
      var left := Minus(l.events[fd], mask);
      var events := l.events[fd := left];
      var maxfd := if fd == l.maxfd && left == NONE then Highest(events, fd - 1) else l.maxfd;
      var slot := Lookup(l.pending, fd);
      var l1 := l.(events := events, maxfd := maxfd);
      if slot.Some? then
        var m := Minus(l.pending[slot.value].mask, mask);
        l1.(pending := l.pending[slot.value := Pending(if m == NONE then None else Some(fd), m)])
      else if left == NONE then l1.(kernel := l.kernel - {fd})
      else l1.(kernel := l.kernel[fd := left])
  }

  /** The pending descriptors given back to the kernel. */
  function Restored(kernel: map<nat, Mask>, pending: seq<Pending>): map<nat, Mask> {
    if pending == [] then kernel
    else
      var last := pending[|pending| - 1];
      var k := Restored(kernel, pending[..|pending| - 1]);
      if last.fd.None? then k else k[last.fd.value := last.mask]
  }

  function Restore(l: Loop): Loop {
    l.(kernel := Restored(l.kernel, l.pending), pending := [])
  }

  /** What `port_getn` may report: different associated descriptors, not more than a batch. */
  predicate Reportable(l: Loop, fired: seq<nat>) {
    && |fired| <= BATCH
    && (forall i | 0 <= i < |fired| :: fired[i] in l.kernel)
    && (forall i, j | 0 <= i < j < |fired| :: fired[i] != fired[j])
  }

  function Fire(l: Loop, fired: seq<nat>): Loop
    requires forall i | 0 <= i < |fired| :: fired[i] in l.kernel
  {
    l.(pending := seq(|fired|, i requires 0 <= i < |fired| => Pending(Some(fired[i]), l.kernel[fired[i]])),
       kernel := l.kernel - set fd | fd in fired)
  }

  /** `aeResizeSetSize`. */
  function Resize(l: Loop, setsize: nat): Loop
    requires -1 <= l.maxfd < |l.events|
  {
    if setsize == |l.events| || l.maxfd >= setsize then l
    else l.(events := l.events[..l.maxfd + 1] + seq(setsize - (l.maxfd + 1), _ => NONE))
  }

  // --- Changing the mask of a descriptor ---

  ghost predicate PlacesOk(l: Loop) {
    PendingOk(l) && KernelOk(l) && Placed(l)
  }

  /** A pending descriptor gets a new mask in its slot, and leaves it with its last event. */
  lemma UpdatePending(l: Loop, fd: nat, slot: nat, left: Mask, maxfd: int)
    requires PlacesOk(l) && fd < |l.events| && slot < |l.pending| && l.pending[slot].fd == Some(fd)
    ensures PlacesOk(l.(events := l.events[fd := left], maxfd := maxfd,
                        pending := l.pending[slot := Pending(if left == NONE then None else Some(fd), left)]))
  {
    var pending := l.pending[slot := Pending(if left == NONE then None else Some(fd), left)];
    var l' := l.(events := l.events[fd := left], maxfd := maxfd, pending := pending);
    assert Slotted(l.pending, fd);
    forall f: nat
      ensures Slotted(pending, f) <==> Slotted(l.pending, f) && (f != fd || left != NONE)
    {
      SlotUpdated(l.pending, fd, slot, left, f);
    }
    hide Slotted;
    assert PendingOk(l');
    assert Placed(l') && KernelOk(l');
  }

  lemma SlotUpdated(pending: seq<Pending>, fd: nat, slot: nat, left: Mask, f: nat)
    requires DistinctSlots(pending) && slot < |pending| && pending[slot].fd == Some(fd)
    ensures Slotted(pending[slot := Pending(if left == NONE then None else Some(fd), left)], f)
        <==> Slotted(pending, f) && (f != fd || left != NONE)
  {
    var updated := pending[slot := Pending(if left == NONE then None else Some(fd), left)];
    if Slotted(updated, f) {
      var i :| 0 <= i < |updated| && updated[i].fd == Some(f);
      assert pending[i].fd == Some(f);
    }
    if Slotted(pending, f) && (f != fd || left != NONE) {
      var i :| 0 <= i < |pending| && pending[i].fd == Some(f);
      assert updated[i].fd == Some(f);
    }
  }

  /** A descriptor that is not pending is associated with a new mask, or dissociated with its last event. */
  lemma UpdateAssociated(l: Loop, fd: nat, left: Mask, maxfd: int)
    requires PlacesOk(l) && fd < |l.events|
    requires forall i | 0 <= i < |l.pending| :: l.pending[i].fd != Some(fd)
    ensures PlacesOk(l.(events := l.events[fd := left], maxfd := maxfd,
                        kernel := if left == NONE then l.kernel - {fd} else l.kernel[fd := left]))
  {
    var l' := l.(events := l.events[fd := left], maxfd := maxfd,
                 kernel := if left == NONE then l.kernel - {fd} else l.kernel[fd := left]);
    assert forall f: nat :: IsPending(l', f) <==> IsPending(l, f);
  }

  // --- Adding ---

  lemma CreateKeeps(l: Loop, fd: nat, mask: Mask, ok: bool)
    requires Inv(l) && (mask != NONE || fd >= |l.events| || l.events[fd] != NONE)
    ensures Inv(Create(l, fd, mask, ok))
  {
    hide PendingOk, KernelOk, Placed;
    if fd < |l.events| {
      var full := Or(l.events[fd], mask);
      var maxfd := if fd > l.maxfd then fd else l.maxfd;
      var slot := Lookup(l.pending, fd);
      if slot.Some? {
        Placement(l, fd);
        UpdatePending(l, fd, slot.value, full, maxfd);
      } else {
        UpdateAssociated(l, fd, full, maxfd);
      }
    }
  }

  /** Adding an event keeps the invariant exactly if the mask is not empty, or the descriptor was registered already. */
  lemma CreateKeepsIff(l: Loop, fd: nat, mask: Mask)
    requires Inv(l) && fd < |l.events|
    ensures Inv(Create(l, fd, mask, true)) <==> mask != NONE || l.events[fd] != NONE
  {
    if mask != NONE || l.events[fd] != NONE {
      CreateKeeps(l, fd, mask, true);
    } else {
      Placement(l, fd);
      var l' := Create(l, fd, mask, true);
      assert Lookup(l.pending, fd).None?;
      assert fd in l'.kernel && l'.kernel[fd] == NONE;
    }
  }

  // --- Deleting ---

  lemma DeleteKeepsMax(l: Loop, fd: nat, mask: Mask)
    requires Inv(l)
    ensures MaxOk(Delete(l, fd, mask))
  {
  }

  lemma DeleteKeeps(l: Loop, fd: nat, mask: Mask)
    requires Inv(l)
    ensures Inv(Delete(l, fd, mask))
  {
    DeleteKeepsMax(l, fd, mask);
    hide PendingOk, KernelOk, Placed, Highest;
    if fd < |l.events| && l.events[fd] != NONE {
      var left := Minus(l.events[fd], mask);
      var maxfd := Delete(l, fd, mask).maxfd;
      var slot := Lookup(l.pending, fd);
      if slot.Some? {
        Placement(l, fd);
        UpdatePending(l, fd, slot.value, left, maxfd);
      } else {
        UpdateAssociated(l, fd, left, maxfd);
      }
    }
  }

  // --- Polling ---

  lemma SlottedLast(pending: seq<Pending>, fd: nat)
    requires pending != []
    ensures var n := |pending| - 1;
            Slotted(pending, fd) <==> pending[n].fd == Some(fd) || Slotted(pending[..n], fd)
  {
    var n := |pending| - 1;
    if Slotted(pending[..n], fd) {
      var i :| 0 <= i < n && pending[..n][i].fd == Some(fd);
      assert pending[i].fd == Some(fd);
    }
    if Slotted(pending, fd) && pending[n].fd != Some(fd) {
      var i :| 0 <= i < |pending| && pending[i].fd == Some(fd);
      assert pending[..n][i].fd == Some(fd);
    }
  }

  /** What the kernel holds after the slots have been given back, for one descriptor. */
  lemma {:induction false} RestoredIs(kernel: map<nat, Mask>, pending: seq<Pending>, fd: nat)
    ensures fd in Restored(kernel, pending) <==> fd in kernel || Slotted(pending, fd)
    ensures fd in kernel && !Slotted(pending, fd) ==> Restored(kernel, pending)[fd] == kernel[fd]
  {
    hide Slotted;
    if pending == [] {
      NoSlot(fd);
    } else {
      SlottedLast(pending, fd);
      RestoredIs(kernel, pending[..|pending| - 1], fd);
    }
  }

  lemma NoSlot(fd: nat)
    ensures !Slotted([], fd)
  {
  }

  lemma {:induction false} RestoredMask(kernel: map<nat, Mask>, pending: seq<Pending>, fd: nat, i: nat)
    requires DistinctSlots(pending) && i < |pending| && pending[i].fd == Some(fd)
    ensures fd in Restored(kernel, pending) && Restored(kernel, pending)[fd] == pending[i].mask
  {
    var n := |pending| - 1;
    if i < n {
      assert pending[n].fd != Some(fd);
      RestoredMask(kernel, pending[..n], fd, i);
    }
  }

  /** Giving the pending descriptors back leaves every registered one with the kernel. */
  lemma RestoreKeeps(l: Loop)
    requires Inv(l)
    ensures Inv(Restore(l))
  {
    hide Restored;
    var l' := Restore(l);
    forall fd: nat
      ensures fd in l'.kernel <==> fd in l.kernel || IsPending(l, fd)
      ensures fd in l'.kernel ==> fd < |l.events| && l'.kernel[fd] == l.events[fd]
    {
      RestoredIs(l.kernel, l.pending, fd);
      if IsPending(l, fd) {
        var i: nat :| 0 <= i < |l.pending| && l.pending[i].fd == Some(fd);
        RestoredMask(l.kernel, l.pending, fd, i);
      }
    }
  }

  lemma FireKeeps(l: Loop, fired: seq<nat>)
    requires Inv(l) && l.pending == [] && Reportable(l, fired)
    ensures Inv(Fire(l, fired))
  {
    var l' := Fire(l, fired);
    forall fd: nat
      ensures IsPending(l', fd) <==> fd in fired
    {
      if fd in fired {
        var i :| 0 <= i < |fired| && fired[i] == fd;
        assert l'.pending[i].fd == Some(fd);
      }
    }
  }

  lemma ResizeKeeps(l: Loop, setsize: nat)
    requires Inv(l)
    ensures Inv(Resize(l, setsize))
  {
    var l' := Resize(l, setsize);
    assert forall fd: nat :: IsPending(l', fd) <==> IsPending(l, fd);
    assert forall fd: nat | fd <= l.maxfd :: fd < |l'.events| && l'.events[fd] == l.events[fd];
  }

  // --- Every run ---

  datatype Action =
    | Adding(fd: nat, mask: Mask, ok: bool)
    | Deleting(fd: nat, mask: Mask)
    | Polling(fired: seq<nat>)
    | Resizing(setsize: nat)

  /** Callers add at least one event, and the kernel reports what it may. */
  ghost predicate Enabled(l: Loop, a: Action) {
    match a
    case Adding(_, mask, _) => mask != NONE
    case Deleting(_, _) => l.maxfd < |l.events|
    case Polling(fired) => Reportable(Restore(l), fired)
    case Resizing(_) => -1 <= l.maxfd < |l.events|
  }

  ghost function Next(l: Loop, a: Action): Loop
    requires Enabled(l, a)
  {
    match a
    case Adding(fd, mask, ok) => Create(l, fd, mask, ok)
    case Deleting(fd, mask) => Delete(l, fd, mask)
    case Polling(fired) => Fire(Restore(l), fired)
    case Resizing(setsize) => Resize(l, setsize)
  }

  lemma StepKeeps(l: Loop, a: Action)
    requires Inv(l) && Enabled(l, a)
    ensures Inv(Next(l, a))
  {
    hide Inv, Restore;
    match a
    case Adding(fd, mask, ok) => CreateKeeps(l, fd, mask, ok);
    case Deleting(fd, mask) => DeleteKeeps(l, fd, mask);
    case Polling(fired) =>
      RestoreKeeps(l);
      RestoreEmpties(l);
      FireKeeps(Restore(l), fired);
    case Resizing(setsize) => ResizeKeeps(l, setsize);
  }

  lemma RestoreEmpties(l: Loop)
    ensures Restore(l).pending == []
  {
  }

  ghost predicate Run(loops: seq<Loop>, actions: seq<Action>) {
    && |loops| == |actions| + 1
    && loops[0].maxfd == -1 && loops[0].pending == [] && loops[0].kernel == map[]
    && (forall fd | 0 <= fd < |loops[0].events| :: loops[0].events[fd] == NONE)
    && forall i | 0 <= i < |actions| :: Enabled(loops[i], actions[i]) && loops[i + 1] == Next(loops[i], actions[i])
  }

  lemma {:induction false} RunKeeps(loops: seq<Loop>, actions: seq<Action>, i: nat)
    requires Run(loops, actions) && i <= |actions|
    ensures Inv(loops[i])
  {
    hide Next, Enabled;
    if i > 0 {
      RunKeeps(loops, actions, i - 1);
      hide Inv;
      assert loops[i - 1 + 1] == Next(loops[i - 1], actions[i - 1]);
      StepKeeps(loops[i - 1], actions[i - 1]);
    }
  }

  /** When the kernel is asked for events, it watches exactly the registered descriptors, for exactly their events. */
  lemma PollSeesAll(loops: seq<Loop>, actions: seq<Action>, i: nat, fd: nat)
    requires Run(loops, actions) && i <= |actions|
    ensures var l := loops[i];
            var kernel := Restore(l).kernel;
            && (fd in kernel <==> fd < |l.events| && l.events[fd] != NONE)
            && (fd in kernel ==> kernel[fd] == l.events[fd])
  {
    RunKeeps(loops, actions, i);
    RestoreKeeps(loops[i]);
    hide Restored;
    var l := Restore(loops[i]);
    assert !IsPending(l, fd);
    if fd < |l.events| {
      Placement(l, fd);
    }
  }

  // --- What is registered, over a run ---

  datatype Event = Readable | Writable

  predicate Has(m: Mask, e: Event) {
    match e
    case Readable => m.readable
    case Writable => m.writable
  }

  /** The descriptor is registered for the event. */
  predicate Registered(l: Loop, fd: nat, e: Event) {
    fd < |l.events| && Has(l.events[fd], e)
  }

  /** The action adds the event to the descriptor, and succeeds. */
  ghost predicate Adds(l: Loop, a: Action, fd: nat, e: Event) {
    a.Adding? && a.fd == fd && Has(a.mask, e) && fd < |l.events| && (a.ok || IsPending(l, fd))
  }

  predicate Removes(a: Action, fd: nat, e: Event) {
    a.Deleting? && a.fd == fd && Has(a.mask, e)
  }

  lemma RegisteredStep(l: Loop, a: Action, fd: nat, e: Event)
    requires Inv(l) && Enabled(l, a)
    ensures Registered(Next(l, a), fd, e) <==> (Registered(l, fd, e) || Adds(l, a, fd, e)) && !Removes(a, fd, e)
  {
    hide PendingOk, KernelOk, Placed, Restored, Highest;
    if a.Adding? {
      SlotFound(l.pending, a.fd);
    }
  }

  lemma SlotFound(pending: seq<Pending>, fd: nat)
    ensures Lookup(pending, fd).Some? <==> Slotted(pending, fd)
  {
  }

  /** The event was added at step `j` and has not been removed since. */
  ghost predicate AddedAt(loops: seq<Loop>, actions: seq<Action>, i: nat, fd: nat, e: Event, j: nat)
    requires |loops| == |actions| + 1 && i <= |actions|
  {
    j < i && Adds(loops[j], actions[j], fd, e) && forall k | j < k < i :: !Removes(actions[k], fd, e)
  }

  /**
   In every run, a descriptor is registered for exactly the events that were added to it
   and not deleted since, whatever was polled and however the table was resized.
   */
  lemma {:induction false} RegisteredIff(loops: seq<Loop>, actions: seq<Action>, i: nat, fd: nat, e: Event)
    requires Run(loops, actions) && i <= |actions|
    ensures Registered(loops[i], fd, e) <==> exists j: nat :: AddedAt(loops, actions, i, fd, e, j)
  {
    hide Next, Enabled, Adds;
    if i > 0 {
      RunKeeps(loops, actions, i - 1);
      hide Inv;
      RegisteredIff(loops, actions, i - 1, fd, e);
      var l, a := loops[i - 1], actions[i - 1];
      assert loops[i - 1 + 1] == Next(l, a);
      RegisteredStep(l, a, fd, e);
      if Registered(loops[i], fd, e) {
        if Registered(l, fd, e) {
          var j: nat :| AddedAt(loops, actions, i - 1, fd, e, j);
          assert AddedAt(loops, actions, i, fd, e, j);
        } else {
          assert AddedAt(loops, actions, i, fd, e, i - 1);
        }
      }
      if j: nat :| AddedAt(loops, actions, i, fd, e, j) {
        if j < i - 1 {
          assert AddedAt(loops, actions, i - 1, fd, e, j);
        } else {
          AddsNotRemoves(l, a, fd, e);
        }
      }
    }
  }

  lemma AddsNotRemoves(l: Loop, a: Action, fd: nat, e: Event)
    requires Adds(l, a, fd, e)
    ensures !Removes(a, fd, e)
  {
  }

  // --- The loop, as the source updates it ---

  predicate SlotsOk(fds: seq<int>, masks: seq<Mask>) {
    |fds| == |masks| && forall i | 0 <= i < |fds| :: fds[i] >= -1
  }

  function ToPending(fds: seq<int>, masks: seq<Mask>): (r: seq<Pending>)
    requires SlotsOk(fds, masks)
    ensures |r| == |fds|
    ensures forall i | 0 <= i < |r| :: r[i] == Pending(if fds[i] == -1 then None else Some(fds[i]), masks[i])
  {
    seq(|fds|, i requires 0 <= i < |fds| => Pending(if fds[i] == -1 then None else Some(fds[i]), masks[i]))
  }

  lemma {:induction false} LookupFirst(pending: seq<Pending>, fd: nat, i: nat)
    requires i < |pending| && pending[i].fd == Some(fd)
    requires forall j | 0 <= j < i :: pending[j].fd != Some(fd)
    ensures Lookup(pending, fd) == Some(i)
  {
    if i > 0 {
      LookupFirst(pending[1..], fd, i - 1);
    }
  }

  lemma RestoredNone(kernel: map<nat, Mask>, pending: seq<Pending>)
    ensures Restored(kernel, pending[..0]) == kernel
  {
  }

  lemma RestoredNext(kernel: map<nat, Mask>, pending: seq<Pending>, i: nat)
    requires i < |pending|
    ensures var k := Restored(kernel, pending[..i]);
            Restored(kernel, pending[..i + 1])
            == if pending[i].fd.None? then k else k[pending[i].fd.value := pending[i].mask]
  {
    assert pending[..i + 1][..i] == pending[..i];
  }

  class EventLoop {
    var events: array<Mask>
    var maxfd: int
    var npending: nat
    const pendingFds: array<int>
    const pendingMasks: array<Mask>
    var kernel: map<nat, Mask>

    predicate Valid()
      reads this, pendingFds, pendingMasks
    {
      && pendingFds.Length == BATCH == pendingMasks.Length && npending <= BATCH
      && events != pendingMasks
      && SlotsOk(pendingFds[..npending], pendingMasks[..npending])
    }

    function Value(): Loop
      requires Valid()
      reads this, events, pendingFds, pendingMasks
    {
      Loop(events[..], maxfd, ToPending(pendingFds[..npending], pendingMasks[..npending]), kernel)
    }

    /** `aeCreateEventLoop` with `aeApiCreate`. */
    constructor (setsize: nat)
      ensures Valid() && Inv(Value()) && fresh(events) && fresh(pendingFds) && fresh(pendingMasks)
      ensures Value() == Loop(seq(setsize, _ => NONE), -1, [], map[])
    {
      maxfd, npending, kernel := -1, 0, map[];
      events := new Mask[setsize](_ => NONE);
      pendingFds := new int[BATCH](_ => -1);
      pendingMasks := new Mask[BATCH](_ => NONE);
    }

    /** `aeApiLookupPending`. */
    method LookupPending(fd: nat) returns (pfd: int)
      requires Valid()
      ensures pfd == (var slot := Lookup(Value().pending, fd); if slot.Some? then slot.value as int else -1)
      ensures -1 <= pfd < npending && (pfd >= 0 ==> pendingFds[pfd] == fd)
    {
      ghost var pending := Value().pending;
      var i := 0;
      while i < npending
        invariant 0 <= i <= npending && forall j | 0 <= j < i :: pending[j].fd != Some(fd)
      {
        if pendingFds[i] == fd {
          assert pending[i].fd == Some(fd);
          LookupFirst(pending, fd, i);
          return i;
        }
        i := i + 1;
      }
      return -1;
    }

    /** `aeApiAddEvent`. */
    method ApiAddEvent(fd: nat, mask: Mask, associates: bool) returns (ok: bool)
      requires Valid() && fd < events.Length
      modifies this`kernel, pendingMasks
      ensures Valid()
      ensures var l, slot := old(Value()), Lookup(old(Value()).pending, fd);
              var full := Or(mask, l.events[fd]);
              && ok == (slot.Some? || associates)
              && Value() == if slot.Some? then
                              l.(pending := l.pending[slot.value :=
                                   Pending(Some(fd), Or(l.pending[slot.value].mask, full))])
                            else if associates then l.(kernel := l.kernel[fd := full]) else l
    {
      ghost var l := Value();
      var full := Or(mask, events[fd]);
      var pfd := LookupPending(fd);
      if pfd != -1 {
        pendingMasks[pfd] := Or(pendingMasks[pfd], full);
        assert Value().pending == l.pending[pfd := Pending(Some(fd), Or(l.pending[pfd].mask, full))];
        return true;
      }
      if associates {
        kernel := kernel[fd := full];
      }
      return associates;
    }

    /** `aeCreateFileEvent`. */
    method CreateFileEvent(fd: nat, mask: Mask, associates: bool) returns (ok: bool)
      requires Valid()
      modifies this, events, pendingMasks
      ensures Valid() && events == old(events) && Value() == Create(old(Value()), fd, mask, associates)
      ensures ok <==> fd < events.Length && (Slotted(old(Value()).pending, fd) || associates)
      ensures !ok ==> Value() == old(Value())
      ensures forall f: nat | f < events.Length ::
                && events[f].readable == (old(events[f]).readable || (ok && f == fd && mask.readable))
                && events[f].writable == (old(events[f]).writable || (ok && f == fd && mask.writable))
    {
      hide Lookup;
      if fd >= events.Length {
        return false;
      }
      ok := ApiAddEvent(fd, mask, associates);
      if !ok {
        return;
      }
      events[fd] := Or(events[fd], mask);
      if fd > maxfd {
        maxfd := fd;
      }
    }

    /** `aeApiDelEvent`, after the loop's own mask has been updated. */
    method ApiDelEvent(fd: nat, mask: Mask)
      requires Valid() && fd < events.Length
      modifies this`kernel, pendingFds, pendingMasks
      ensures Valid()
      ensures var l, slot := old(Value()), Lookup(old(Value()).pending, fd);
              Value() == if slot.Some? then
                           var m := Minus(l.pending[slot.value].mask, mask);
                           l.(pending := l.pending[slot.value := Pending(if m == NONE then None else Some(fd), m)])
                         else if l.events[fd] == NONE then l.(kernel := l.kernel - {fd})
                         else l.(kernel := l.kernel[fd := l.events[fd]])
      ensures var slot := Lookup(old(Value()).pending, fd);
              slot.Some? ==>
                && pendingMasks[slot.value].readable == (old(pendingMasks[slot.value]).readable && !mask.readable)
                && pendingMasks[slot.value].writable == (old(pendingMasks[slot.value]).writable && !mask.writable)
    {
      hide Lookup;
      ghost var l := Value();
      var pfd := LookupPending(fd);
      if pfd != -1 {
        pendingMasks[pfd] := Minus(pendingMasks[pfd], mask);
        if pendingMasks[pfd] == NONE {
          pendingFds[pfd] := -1;
        }
        ghost var m := Minus(l.pending[pfd].mask, mask);
        assert Value().pending == l.pending[pfd := Pending(if m == NONE then None else Some(fd), m)];
        return;
      }
      var full := events[fd];
      if full == NONE {
        kernel := kernel - {fd};
      } else {
        kernel := kernel[fd := full];
      }
    }

    /** `aeDeleteFileEvent`. */
    method DeleteFileEvent(fd: nat, mask: Mask)
      requires Valid() && maxfd < events.Length
      modifies this, events, pendingFds, pendingMasks
      ensures Valid() && events == old(events) && Value() == Delete(old(Value()), fd, mask)
      ensures forall f: nat | f < events.Length ::
                && events[f].readable == (old(events[f]).readable && !(f == fd && mask.readable))
                && events[f].writable == (old(events[f]).writable && !(f == fd && mask.writable))
    {
      hide Lookup, Highest;
      if fd >= events.Length {
        return;
      }
      if events[fd] == NONE {
        return;
      }
      events[fd] := Minus(events[fd], mask);
      if fd == maxfd && events[fd] == NONE {
        maxfd := FindMax(fd);
      }
      ApiDelEvent(fd, mask);
    }

    /** The downward scan of `aeDeleteFileEvent`. */
    method FindMax(from: nat) returns (j: int)
      requires from <= events.Length
      ensures j == Highest(events[..], from - 1)
    {
      j := from - 1;
      while j >= 0
        invariant -1 <= j < events.Length && Highest(events[..], j) == Highest(events[..], from - 1)
      {
        if events[j] != NONE {
          return;
        }
        j := j - 1;
      }
    }

    /** The first loop of `aeApiPoll`: the pending descriptors are associated again. */
    method Reassociate()
      requires Valid()
      modifies this`kernel, this`npending, pendingFds, pendingMasks
      ensures Valid() && Value() == Restore(old(Value()))
    {
      hide Restored;
      ghost var pending := Value().pending;
      RestoredNone(kernel, pending);
      var i := 0;
      while i < npending
        invariant 0 <= i <= npending == old(npending) && kernel == Restored(old(kernel), pending[..i])
        invariant forall j | i <= j < npending :: pendingFds[j] >= -1
        invariant forall j | i <= j < npending ::
                    pending[j] == Pending(if pendingFds[j] == -1 then None else Some(pendingFds[j]), pendingMasks[j])
      {
        RestoredNext(old(kernel), pending, i);
        if pendingFds[i] != -1 {
          kernel := kernel[pendingFds[i] := pendingMasks[i]];
          pendingMasks[i] := NONE;
          pendingFds[i] := -1;
        }
        i := i + 1;
      }
      assert pending[..i] == pending;
      npending := 0;
    }

    /** `aeApiPoll`; `fired` is what `port_getn` reports, nothing if it times out. */
    method ApiPoll(fired: seq<nat>)
      requires Valid() && Reportable(Restore(Value()), fired)
      modifies this, pendingFds, pendingMasks
      ensures Valid() && events == old(events) && Value() == Fire(Restore(old(Value())), fired)
      ensures npending == |fired| && forall i | 0 <= i < |fired| :: pendingFds[i] == fired[i] && fired[i] !in kernel
      ensures forall fd | fd in Restore(old(Value())).kernel && fd !in fired ::
                fd in kernel && kernel[fd] == Restore(old(Value())).kernel[fd]
    {
      hide Restore, Restored;
      Reassociate();
      ghost var l := Value();
      var masks := kernel;
      kernel := kernel - set fd | fd in fired;
      npending := |fired|;
      var i := 0;
      while i < |fired|
        invariant 0 <= i <= |fired|
        invariant forall j | 0 <= j < i :: pendingFds[j] == fired[j] && pendingMasks[j] == masks[fired[j]]
        modifies pendingFds, pendingMasks
      {
        pendingFds[i] := fired[i];
        pendingMasks[i] := masks[fired[i]];
        i := i + 1;
      }
      assert Value().pending == Fire(l, fired).pending;
    }

    /** `aeResizeSetSize`. */
    method ResizeSetSize(setsize: nat) returns (ok: bool)
      requires Valid() && -1 <= maxfd < events.Length
      modifies this`events
      ensures Valid() && Value() == Resize(old(Value()), setsize)
      ensures ok <==> setsize == old(events.Length) || maxfd < setsize
      ensures if ok then events.Length == setsize else events == old(events)
      ensures forall f: nat | f < events.Length && f <= maxfd :: events[f] == old(events[f])
      ensures events != old(events) ==> forall f: nat | maxfd < f < events.Length :: events[f] == NONE
    {
      if setsize == events.Length {
        return true;
      }
      if maxfd >= setsize {
        return false;
      }
      var before, resized := events, new Mask[setsize];
      var i := 0;
      while i < setsize
        invariant 0 <= i <= setsize
        invariant forall j | 0 <= j < i :: resized[j] == if j <= maxfd then before[j] else NONE
      {
        resized[i] := if i <= maxfd then before[i] else NONE;
        i := i + 1;
      }
      events := resized;
      ok := true;
      assert Value().events == Resize(old(Value()), setsize).events;
    }
  }
}
