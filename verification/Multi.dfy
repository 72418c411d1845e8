/**
 Optimistic transactions of `multi.c`: MULTI, EXEC, DISCARD, WATCH and UNWATCH. Who
 watches what is recorded twice, in an index from keys to clients and in a list with
 every client; a touched key marks the clients that watch it, and EXEC refuses to run for
 a marked client.
 */
module Multi {
  type ClientId = nat

  /** A key in a database. */
  datatype Place = Place(db: nat, key: string)

  /** The transaction state of a client: three of its flags, its watched keys and its queue. */
  datatype Client<Cmd> = Client(
    multi: bool, dirtyCas: bool, dirtyExec: bool, watched: seq<Place>, queue: seq<Cmd>)

  type Index = map<Place, seq<ClientId>>
  type Clients<Cmd> = map<ClientId, Client<Cmd>>

  predicate Distinct<T(==)>(s: seq<T>) {
    forall i, j | 0 <= i < j < |s| :: s[i] != s[j]
  }

  // --- The index and the lists are inverses ---

  predicate IndexOk<Cmd>(clients: Clients<Cmd>, index: Index) {
    forall p | p in index ::
      index[p] != [] && Distinct(index[p]) && forall c | c in index[p] :: c in clients && p in clients[c].watched
  }

  predicate ListsOk<Cmd>(clients: Clients<Cmd>, index: Index) {
    forall c | c in clients ::
      Distinct(clients[c].watched) && forall p | p in clients[c].watched :: p in index && c in index[p]
  }

  /** A client is in the list of a key exactly if the key is in the list of the client, and no list is kept empty. */
  predicate Linked<Cmd>(clients: Clients<Cmd>, index: Index) {
    IndexOk(clients, index) && ListsOk(clients, index)
  }

  lemma LinkedInverse<Cmd>(clients: Clients<Cmd>, index: Index, c: ClientId, p: Place)
    requires Linked(clients, index) && c in clients
    ensures p in index && c in index[p] <==> p in clients[c].watched
  {
  }

  // --- Histories ---

  datatype Event = Watched(client: ClientId, place: Place) | Touched(places: set<Place>) | Cleared(client: ClientId)

  /** Event `i` happened after the last time the client ended a transaction or stopped watching. */
  predicate Active(h: seq<Event>, c: ClientId, i: nat) {
    i < |h| && forall k | i <= k < |h| :: h[k] != Cleared(c)
  }

  ghost predicate WatchedAt(h: seq<Event>, c: ClientId, p: Place, i: nat) {
    Active(h, c, i) && h[i] == Watched(c, p)
  }

  ghost predicate Watches(h: seq<Event>, c: ClientId, p: Place) {
    exists i: nat :: WatchedAt(h, c, p, i)
  }

  predicate TouchedAfter(h: seq<Event>, p: Place, i: nat) {
    exists j | 0 <= j < |h| :: i < j && h[j].Touched? && p in h[j].places
  }

  /** A key that the client watches has been touched since it began to watch it. */
  ghost predicate Spoiled(h: seq<Event>, c: ClientId) {
    exists i: nat, p :: WatchedAt(h, c, p, i) && TouchedAfter(h, p, i)
  }

  lemma ActiveAppend(h: seq<Event>, e: Event, c: ClientId, i: nat)
    requires i < |h|
    ensures Active(h + [e], c, i) <==> Active(h, c, i) && e != Cleared(c)
  {
    var h' := h + [e];
    if Active(h', c, i) {
      assert h'[|h|] == e;
      assert forall k | i <= k < |h| :: h[k] == h'[k];
    }
  }

  lemma WatchesAppend(h: seq<Event>, e: Event, c: ClientId, p: Place)
    ensures Watches(h + [e], c, p) <==> (e == Watched(c, p) || Watches(h, c, p)) && e != Cleared(c)
  {
    var h' := h + [e];
    assert h'[|h|] == e;
    if Watches(h', c, p) {
      var i: nat :| WatchedAt(h', c, p, i);
      assert h'[|h|] != Cleared(c);
      if i < |h| {
        ActiveAppend(h, e, c, i);
        assert WatchedAt(h, c, p, i);
      }
    }
    if e == Watched(c, p) {
      assert WatchedAt(h', c, p, |h|);
    } else if Watches(h, c, p) && e != Cleared(c) {
      var i: nat :| WatchedAt(h, c, p, i);
      ActiveAppend(h, e, c, i);
      assert WatchedAt(h', c, p, i);
    }
  }

  lemma TouchedAfterAppend(h: seq<Event>, e: Event, p: Place, i: nat)
    requires i < |h|
    ensures TouchedAfter(h + [e], p, i) <==> TouchedAfter(h, p, i) || (e.Touched? && p in e.places)
  {
    var h' := h + [e];
    assert h'[|h|] == e;
    if TouchedAfter(h, p, i) {
      var j :| 0 <= j < |h| && i < j && h[j].Touched? && p in h[j].places;
      assert h'[j] == h[j];
    }
  }

  ghost predicate Hits(h: seq<Event>, c: ClientId, e: Event) {
    e.Touched? && exists p :: p in e.places && Watches(h, c, p)
  }

  /** One more event spoils a client exactly if it touches a key the client watches. */
  lemma SpoiledAppend(h: seq<Event>, e: Event, c: ClientId)
    ensures Spoiled(h + [e], c) <==> (Spoiled(h, c) || Hits(h, c, e)) && e != Cleared(c)
  {
    var h' := h + [e];
    if Spoiled(h', c) {
      var i: nat, p :| WatchedAt(h', c, p, i) && TouchedAfter(h', p, i);
      assert i < |h|;
      ActiveAppend(h, e, c, i);
      TouchedAfterAppend(h, e, p, i);
      assert WatchedAt(h, c, p, i);
      assert Watches(h, c, p);
    }
    if Spoiled(h, c) && e != Cleared(c) {
      var i: nat, p :| WatchedAt(h, c, p, i) && TouchedAfter(h, p, i);
      ActiveAppend(h, e, c, i);
      TouchedAfterAppend(h, e, p, i);
      assert WatchedAt(h', c, p, i);
    }
    if Hits(h, c, e) {
      var p :| p in e.places && Watches(h, c, p);
      var i: nat :| WatchedAt(h, c, p, i);
      ActiveAppend(h, e, c, i);
      TouchedAfterAppend(h, e, p, i);
      assert WatchedAt(h', c, p, i);
    }
  }

  /** The lists and the flag of a client say what its history says. */
  ghost predicate ClientAgrees<Cmd>(client: Client<Cmd>, c: ClientId, h: seq<Event>) {
    && (forall p :: p in client.watched <==> Watches(h, c, p))
    && (client.dirtyCas <==> Spoiled(h, c))
  }

  ghost predicate Agrees<Cmd>(clients: Clients<Cmd>, h: seq<Event>) {
    forall c | c in clients :: ClientAgrees(clients[c], c, h)
  }

  // --- Lists of clients ---

  function RemoveFirst(s: seq<ClientId>, c: ClientId): seq<ClientId> {
    if s == [] then [] else if s[0] == c then s[1..] else [s[0]] + RemoveFirst(s[1..], c)
  }

  lemma {:induction false} RemoveFirstIs(s: seq<ClientId>, c: ClientId)
    requires Distinct(s)
    ensures Distinct(RemoveFirst(s, c))
    ensures forall x :: x in RemoveFirst(s, c) <==> x in s && x != c
  {
    if s != [] {
      RemoveFirstIs(s[1..], c);
      assert s == [s[0]] + s[1..];
      assert forall x :: x in s <==> x == s[0] || x in s[1..];
      assert s[0] !in s[1..];
    }
  }

  /** The clients with those in `who` marked dirty. */
  function Mark<Cmd>(clients: Clients<Cmd>, who: set<ClientId>): (r: Clients<Cmd>)
    ensures r.Keys == clients.Keys
    ensures forall c | c in clients ::
              r[c] == if c in who then clients[c].(dirtyCas := true) else clients[c]
  {
    map c | c in clients :: if c in who then clients[c].(dirtyCas := true) else clients[c]
  }

  lemma MarkLinked<Cmd>(clients: Clients<Cmd>, who: set<ClientId>, index: Index)
    requires Linked(clients, index)
    ensures Linked(Mark(clients, who), index)
  {
  }

  /** Marking whoever watches one of the places records the touch. */
  lemma MarkAgrees<Cmd>(clients: Clients<Cmd>, who: set<ClientId>, h: seq<Event>, places: set<Place>)
    requires Agrees(clients, h)
    requires forall c | c in clients :: c in who <==> exists p :: p in places && p in clients[c].watched
    ensures Agrees(Mark(clients, who), h + [Touched(places)])
  {
    var e := Touched(places);
    forall c | c in clients
      ensures ClientAgrees(Mark(clients, who)[c], c, h + [e])
    {
      assert ClientAgrees(clients[c], c, h);
      SpoiledAppend(h, e, c);
      forall p
        ensures Watches(h + [e], c, p) <==> Watches(h, c, p)
      {
        WatchesAppend(h, e, c, p);
      }
      assert Hits(h, c, e) <==> c in who;
    }
  }

  // --- Watching and unwatching one key ---

  function AddWatcher(index: Index, c: ClientId, p: Place): Index {
    index[p := (if p in index then index[p] else []) + [c]]
  }

  function SetWatched<Cmd>(clients: Clients<Cmd>, c: ClientId, watched: seq<Place>): Clients<Cmd>
    requires c in clients
  {
    clients[c := clients[c].(watched := watched)]
  }

  lemma WatchLinked<Cmd>(clients: Clients<Cmd>, index: Index, c: ClientId, p: Place)
    requires Linked(clients, index) && c in clients && p !in clients[c].watched
    ensures Linked(SetWatched(clients, c, clients[c].watched + [p]), AddWatcher(index, c, p))
  {
    var clients', index' := SetWatched(clients, c, clients[c].watched + [p]), AddWatcher(index, c, p);
    forall q | q in index'
      ensures index'[q] != [] && Distinct(index'[q])
      ensures forall d | d in index'[q] :: d in clients' && q in clients'[d].watched
    {
      if q == p {
        assert p in index ==> c !in index[p];
      }
    }
    forall d | d in clients'
      ensures Distinct(clients'[d].watched)
      ensures forall q | q in clients'[d].watched :: q in index' && d in index'[q]
    {
      assert d == c || clients'[d] == clients[d];
    }
  }

  lemma WatchAgrees<Cmd>(clients: Clients<Cmd>, c: ClientId, p: Place, watched: seq<Place>, h: seq<Event>)
    requires Agrees(clients, h) && c in clients
    requires forall q :: q in watched <==> q in clients[c].watched || q == p
    ensures Agrees(SetWatched(clients, c, watched), h + [Watched(c, p)])
  {
    var e := Watched(c, p);
    forall d | d in clients
      ensures ClientAgrees(SetWatched(clients, c, watched)[d], d, h + [e])
    {
      assert ClientAgrees(clients[d], d, h);
      SpoiledAppend(h, e, d);
      forall q
        ensures Watches(h + [e], d, q) <==> Watches(h, d, q) || e == Watched(d, q)
      {
        WatchesAppend(h, e, d, q);
      }
    }
  }

  /** Removing the client from the list of the key, and the list with its last client. */
  function DropWatcher(index: Index, c: ClientId, p: Place): Index
    requires p in index
  {
    var rest := RemoveFirst(index[p], c);
    if rest == [] then index - {p} else index[p := rest]
  }

  lemma DropLinked<Cmd>(clients: Clients<Cmd>, index: Index, c: ClientId)
    requires Linked(clients, index) && c in clients && clients[c].watched != []
    ensures var p := clients[c].watched[0];
            p in index && Linked(SetWatched(clients, c, clients[c].watched[1..]), DropWatcher(index, c, p))
  {
    var p := clients[c].watched[0];
    var rest := clients[c].watched[1..];
    RemoveFirstIs(index[p], c);
    var clients', index' := SetWatched(clients, c, rest), DropWatcher(index, c, p);
    assert clients[c].watched == [p] + rest;
    assert p !in rest;
    forall q | q in index'
      ensures index'[q] != [] && Distinct(index'[q])
      ensures forall d | d in index'[q] :: d in clients' && q in clients'[d].watched
    {
      assert q in index;
      forall d | d in index'[q]
        ensures d in clients' && q in clients'[d].watched
      {
        assert d in index[q];
        if d == c {
          assert q != p;
        }
      }
    }
    forall d | d in clients'
      ensures Distinct(clients'[d].watched)
      ensures forall q | q in clients'[d].watched :: q in index' && d in index'[q]
    {
      forall q | q in clients'[d].watched
        ensures q in index' && d in index'[q]
      {
        assert q in clients[d].watched && q in index && d in index[q];
        if q == p {
          assert d != c;
          assert d in RemoveFirst(index[p], c);
        }
      }
    }
  }

  /** Ending a transaction and unwatching forgets what happened to the client, and to no other. */
  lemma ClearAgrees<Cmd>(clients: Clients<Cmd>, h: seq<Event>, c: ClientId, clients': Clients<Cmd>)
    requires forall d | d in clients' :: d == c || (d in clients && clients'[d] == clients[d])
    requires Agrees(clients, h)
    requires c in clients' ==> clients'[c].watched == [] && !clients'[c].dirtyCas
    ensures Agrees(clients', h + [Cleared(c)])
  {
    var e := Cleared(c);
    forall d | d in clients'
      ensures ClientAgrees(clients'[d], d, h + [e])
    {
      SpoiledAppend(h, e, d);
      forall q
        ensures Watches(h + [e], d, q) <==> Watches(h, d, q) && d != c
      {
        WatchesAppend(h, e, d, q);
      }
      if d != c {
        assert ClientAgrees(clients[d], d, h);
      }
    }
  }

  // --- The server ---

  datatype ExecResult<Cmd> = NotInMulti | AbortedByError | AbortedByTouch | Ran(commands: seq<Cmd>)

  /** The events of a command that touches the given keys. */
  function TouchEach(places: seq<Place>): seq<Event> {
    if places == [] then [] else TouchEach(places[..|places| - 1]) + [Touched({places[|places| - 1]})]
  }

  /** The events of several commands, in order. */
  function Touches(effects: seq<seq<Place>>): seq<Event> {
    if effects == [] then [] else Touches(effects[..|effects| - 1]) + TouchEach(effects[|effects| - 1])
  }

  /** One of the watched keys is among the touched ones. */
  predicate HitBy(watched: seq<Place>, places: seq<Place>) {
    exists p | p in places :: p in watched
  }

  /** One of the watched keys is touched by one of the commands. */
  predicate HitByAny(watched: seq<Place>, effects: seq<seq<Place>>) {
    exists j | 0 <= j < |effects| :: HitBy(watched, effects[j])
  }

  lemma HitByNone()
    ensures forall watched :: !HitByAny(watched, [])
  {
  }

  lemma HitByNothing()
    ensures forall watched :: !HitBy(watched, [])
  {
  }

  lemma HitByOneMore(places: seq<Place>, i: nat)
    requires i < |places|
    ensures forall watched :: HitBy(watched, places[..i + 1]) <==> HitBy(watched, places[..i]) || places[i] in watched
  {
    assert places[..i + 1] == places[..i] + [places[i]];
    forall watched
      ensures HitBy(watched, places[..i + 1]) <==> HitBy(watched, places[..i]) || places[i] in watched
    {
      if HitBy(watched, places[..i]) {
        var p :| p in places[..i] && p in watched;
        assert p in places[..i + 1];
      }
      assert places[i] in places[..i + 1];
    }
  }

  lemma HitByMore(effects: seq<seq<Place>>, j: nat)
    requires j < |effects|
    ensures forall watched :: HitByAny(watched, effects[..j + 1]) <==>
                              HitByAny(watched, effects[..j]) || HitBy(watched, effects[j])
  {
    hide HitBy;
    var before, now := effects[..j], effects[..j + 1];
    assert now[j] == effects[j] && forall i | 0 <= i < j :: now[i] == before[i];
  }

  class Transactions<Cmd> {
    var clients: Clients<Cmd>
    var index: Index

    /** What has happened so far. */
    ghost var history: seq<Event>

    ghost predicate Valid()
      reads this
    {
      Linked(clients, index) && Agrees(clients, history) && Tidy(clients)
    }

    constructor ()
      ensures Valid() && clients == map[] && history == []
    {
      clients, index, history := map[], map[], [];
    }

    /** A client connects. */
    method Connect(c: ClientId)
      requires Valid() && c !in clients
      modifies this
      ensures Valid() && history == old(history) + [Cleared(c)]
      ensures clients == old(clients)[c := Client(false, false, false, [], [])]
    {
      hide Agrees;
      clients := clients[c := Client(false, false, false, [], [])];
      history := history + [Cleared(c)];
      ClearAgrees(old(clients), old(history), c, clients);
    }

    /** `watchForKey`. */
    method WatchForKey(c: ClientId, p: Place)
      requires Valid() && c in clients
      modifies this
      ensures Valid() && history == old(history) + [Watched(c, p)]
      ensures clients == SetWatched(old(clients), c,
                           old(clients[c].watched) + if p in old(clients[c].watched) then [] else [p])
    {
      hide Agrees, Linked;
      history := history + [Watched(c, p)];
      var watched := clients[c].watched;
      var i := 0;
      while i < |watched|
        invariant 0 <= i <= |watched| && forall j | 0 <= j < i :: watched[j] != p
      {
        if watched[i] == p {
          WatchAgrees(old(clients), c, p, watched, old(history));
          assert SetWatched(old(clients), c, watched) == clients;
          assert watched + [] == watched;
          return;
        }
        i := i + 1;
      }
      WatchLinked(clients, index, c, p);
      WatchAgrees(clients, c, p, watched + [p], old(history));
      index := AddWatcher(index, c, p);
      clients := SetWatched(clients, c, watched + [p]);
    }

    /** `watchCommand`: nothing is watched inside a transaction. */
    method WatchCommand(c: ClientId, places: seq<Place>) returns (ok: bool)
      requires Valid() && c in clients
      modifies this
      ensures Valid() && ok == !old(clients[c].multi)
      ensures !ok ==> clients == old(clients) && index == old(index) && history == old(history)
      ensures ok ==> history == old(history) + seq(|places|, i requires 0 <= i < |places| => Watched(c, places[i]))
      ensures clients.Keys == old(clients.Keys) && forall d | d in clients && d != c :: clients[d] == old(clients[d])
    {
      hide Agrees, Linked;
      if clients[c].multi {
        return false;
      }
      ghost var events := seq(|places|, i requires 0 <= i < |places| => Watched(c, places[i]));
      var j := 0;
      while j < |places|
        invariant 0 <= j <= |places| && Valid() && history == old(history) + events[..j]
        invariant clients.Keys == old(clients.Keys) && forall d | d in clients && d != c :: clients[d] == old(clients[d])
      {
        WatchForKey(c, places[j]);
        assert events[..j + 1] == events[..j] + [Watched(c, places[j])];
        j := j + 1;
      }
      assert events[..j] == events;
      return true;
    }

    /** `unwatchAllKeys`; the dirty flag is left to the caller. */
    method UnwatchAllKeys(c: ClientId)
      requires Linked(clients, index) && c in clients
      modifies this`clients, this`index
      ensures Linked(clients, index) && clients == SetWatched(old(clients), c, [])
    {
      hide Linked;
      while clients[c].watched != []
        invariant Linked(clients, index) && c in clients
        invariant clients == SetWatched(old(clients), c, clients[c].watched)
        decreases |clients[c].watched|
      {
        var p := clients[c].watched[0];
        DropLinked(clients, index, c);
        index := DropWatcher(index, c, p);
        clients := SetWatched(clients, c, clients[c].watched[1..]);
      }
    }

    /** `unwatchCommand`. */
    method UnwatchCommand(c: ClientId)
      requires Valid() && c in clients
      modifies this
      ensures Valid() && history == old(history) + [Cleared(c)]
      ensures clients == old(clients)[c := old(clients[c]).(watched := [], dirtyCas := false)]
    {
      hide Agrees, Linked, Tidy;
      var unwatched := clients[c].(watched := [], dirtyCas := false);
      TidyUnwatched(clients, c, unwatched);
      UnwatchAllKeys(c);
      SameLinked(clients, clients[c := unwatched], index);
      clients := clients[c := unwatched];
      assert clients == old(clients)[c := unwatched];
      history := history + [Cleared(c)];
      ClearAgrees(old(clients), old(history), c, clients);
    }

    /** `multiCommand`. */
    method MultiCommand(c: ClientId) returns (ok: bool)
      requires Valid() && c in clients
      modifies this
      ensures Valid() && index == old(index) && history == old(history) && ok == !old(clients[c].multi)
      ensures clients == old(clients)[c := old(clients[c]).(multi := true)]
    {
      hide Agrees, Linked;
      if clients[c].multi {
        return false;
      }
      ghost var before := clients;
      clients := clients[c := clients[c].(multi := true)];
      SameLinked(before, clients, index);
      SameAgrees(before, clients, history);
      return true;
    }

    /** `queueMultiCommand`, for a client inside a transaction. */
    method QueueMultiCommand(c: ClientId, cmd: Cmd)
      requires Valid() && c in clients && clients[c].multi
      modifies this
      ensures Valid() && index == old(index) && history == old(history)
      ensures clients == old(clients)[c := old(clients[c]).(queue := old(clients[c].queue) + [cmd])]
    {
      hide Agrees, Linked;
      ghost var before := clients;
      clients := clients[c := clients[c].(queue := clients[c].queue + [cmd])];
      SameLinked(before, clients, index);
      SameAgrees(before, clients, history);
    }

    /** `flagTransaction`. */
    method FlagTransaction(c: ClientId)
      requires Valid() && c in clients
      modifies this
      ensures Valid() && index == old(index) && history == old(history)
      ensures clients == if old(clients[c].multi) then old(clients)[c := old(clients[c]).(dirtyExec := true)] else old(clients)
    {
      hide Agrees, Linked;
      if clients[c].multi {
        ghost var before := clients;
        clients := clients[c := clients[c].(dirtyExec := true)];
        SameLinked(before, clients, index);
        SameAgrees(before, clients, history);
      }
    }

    /** `discardTransaction`. */
    method DiscardTransaction(c: ClientId)
      requires Valid() && c in clients
      modifies this
      ensures Valid() && history == old(history) + [Cleared(c)]
      ensures clients == old(clients)[c := Client(false, false, false, [], [])]
    {
      hide Agrees, Linked;
      UnwatchAllKeys(c);
      SameLinked(clients, clients[c := Client(false, false, false, [], [])], index);
      clients := clients[c := Client(false, false, false, [], [])];
      history := history + [Cleared(c)];
      ClearAgrees(old(clients), old(history), c, clients);
    }

    /** `discardCommand`. */
    method DiscardCommand(c: ClientId) returns (ok: bool)
      requires Valid() && c in clients
      modifies this
      ensures Valid() && ok == old(clients[c].multi)
      ensures history == if ok then old(history) + [Cleared(c)] else old(history)
      ensures clients == if ok then old(clients)[c := Client(false, false, false, [], [])] else old(clients)
    {
      if !clients[c].multi {
        return false;
      }
      DiscardTransaction(c);
      return true;
    }

    /** A client disconnects. */
    method Disconnect(c: ClientId)
      requires Valid() && c in clients
      modifies this
      ensures Valid() && history == old(history) + [Cleared(c)] && clients == old(clients) - {c}
    {
      hide Agrees, Linked;
      UnwatchAllKeys(c);
      DropClient(clients, index, c);
      clients := clients - {c};
      history := history + [Cleared(c)];
      ClearAgrees(old(clients), old(history), c, clients);
    }

    /** `touchWatchedKey`: whoever watches the key becomes dirty. */
    method TouchWatchedKey(p: Place)
      requires Valid()
      modifies this
      ensures Valid() && index == old(index) && history == old(history) + [Touched({p})]
      ensures clients == Mark(old(clients), Watchers(old(clients), {p}))
      ensures clients.Keys == old(clients.Keys) && forall d | d in clients ::
                clients[d].dirtyCas <==> old(clients[d].dirtyCas) || p in old(clients[d].watched)
    {
      hide Agrees, Linked, Mark;
      ghost var before := clients;
      ghost var who := Watchers(clients, {p});
      history := history + [Touched({p})];
      MarkLinked(clients, who, index);
      WatchersMarked(clients, who, {p});
      MarkAgrees(clients, who, old(history), {p});
      MarkTidy(clients, who);
      WatchersOf(clients, index, p);
      MarkedDirty(clients, who, p);
      if p in index {
        var list := index[p];
        var i := 0;
        assert list[..0] == [];
        MarkNone(before);
        while i < |list|
          invariant 0 <= i <= |list| && index == old(index) && history == old(history) + [Touched({p})]
          invariant clients == Mark(before, Ids(list[..i]))
        {
          MarkOne(before, clients, list, i);
          clients := clients[list[i] := clients[list[i]].(dirtyCas := true)];
          i := i + 1;
        }
        assert list[..i] == list && who == Ids(list);
      } else {
        assert who == {};
        MarkNone(before);
      }
    }

    /**
     `touchWatchedKeysOnFlush`: whoever watches a key that is there and will be deleted
     becomes dirty. `dbid` is -1 for all databases.
     */
    method TouchWatchedKeysOnFlush(dbid: int, existing: set<Place>)
      requires Valid()
      modifies this
      ensures Valid() && index == old(index)
      ensures var flushed := set p | p in existing && (dbid == -1 || p.db == dbid);
              && history == old(history) + [Touched(flushed)]
              && clients == Mark(old(clients), Watchers(old(clients), flushed))
      ensures clients.Keys == old(clients.Keys) && forall d | d in clients ::
                clients[d].dirtyCas <==>
                  old(clients[d].dirtyCas) ||
                  exists p | p in old(clients[d].watched) :: p in existing && (dbid == -1 || p.db == dbid)
    {
      hide Agrees, Linked, Mark;
      ghost var flushed := set p | p in existing && (dbid == -1 || p.db == dbid);
      ghost var who := Watchers(clients, flushed);
      history := history + [Touched(flushed)];
      MarkLinked(clients, who, index);
      WatchersMarked(clients, who, flushed);
      MarkAgrees(clients, who, old(history), flushed);
      MarkTidy(clients, who);
      FlushedDirty(clients, who, dbid, existing, flushed);
      MarkFlushed(dbid, existing, flushed);
    }

    /** The outer loop of `touchWatchedKeysOnFlush`. */
    method MarkFlushed(dbid: int, existing: set<Place>, ghost flushed: set<Place>)
      requires flushed == set p | p in existing && (dbid == -1 || p.db == dbid)
      modifies this`clients
      ensures clients == Mark(old(clients), Watchers(old(clients), flushed))
    {
      hide Mark;
      ghost var before, who := clients, Watchers(clients, flushed);
      var todo := clients.Keys;
      MarkNone(before);
      assert who - todo == {};
      while todo != {}
        invariant todo <= before.Keys && clients == Mark(before, who - todo)
      {
        var c :| c in todo;
        ghost var marked := who - todo;
        MarkKeeps(before, marked, c);
        var hit := ScanWatched(clients[c].watched, dbid, existing);
        HitIff(before[c].watched, dbid, existing, flushed);
        todo := todo - {c};
        if hit {
          MarkAnother(before, marked, c);
          clients := clients[c := clients[c].(dirtyCas := true)];
          assert who - todo == marked + {c};
        } else {
          assert who - todo == marked;
        }
      }
      assert who - todo == who;
    }

    /** The inner loop of `touchWatchedKeysOnFlush`. */
    static method ScanWatched(watched: seq<Place>, dbid: int, existing: set<Place>) returns (hit: bool)
      ensures hit <==> exists i | 0 <= i < |watched| ::
                         watched[i] in existing && (dbid == -1 || watched[i].db == dbid)
    {
      hit := false;
      var i := 0;
      while i < |watched|
        invariant 0 <= i <= |watched|
        invariant hit <==> exists j | 0 <= j < i :: watched[j] in existing && (dbid == -1 || watched[j].db == dbid)
      {
        if dbid == -1 || watched[i].db == dbid {
          if watched[i] in existing {
            hit := true;
          }
        }
        i := i + 1;
      }
    }

    /**
     `execCommand`. `effects[j]` are the keys that the `j`-th queued command touches. The
     queue runs as a whole and in order exactly if no watched key was touched and no
     command failed to be queued, and otherwise not at all.
     */
    method ExecCommand(c: ClientId, effects: seq<seq<Place>>) returns (r: ExecResult<Cmd>)
      requires Valid() && c in clients && |effects| == |clients[c].queue|
      modifies this
      ensures Valid()
      ensures r == if !old(clients[c].multi) then NotInMulti
                   else if old(clients[c].dirtyExec) then AbortedByError
                   else if Spoiled(old(history), c) then AbortedByTouch
                   else Ran(old(clients[c].queue))
      ensures history == match r
                         case NotInMulti => old(history)
                         case Ran(_) => old(history) + [Cleared(c)] + Touches(effects) + [Cleared(c)]
                         case _ => old(history) + [Cleared(c)]
      ensures r == NotInMulti ==> clients == old(clients)
      ensures r != NotInMulti ==> c in clients && clients[c] == Client(false, false, false, [], [])
      ensures clients.Keys == old(clients.Keys)
      ensures forall d | d in clients && d != c :: clients[d] == old(clients[d]).(dirtyCas := clients[d].dirtyCas)
      ensures forall d | d in clients && d != c ::
                clients[d].dirtyCas <==> old(clients[d].dirtyCas) || (r.Ran? && HitByAny(old(clients[d].watched), effects))
    {
      hide Agrees, Linked, Mark, Tidy;
      FlagIsSpoiled(clients, history, c);
      if !clients[c].multi {
        return NotInMulti;
      }
      if clients[c].dirtyCas || clients[c].dirtyExec {
        r := if clients[c].dirtyExec then AbortedByError else AbortedByTouch;
        DiscardTransaction(c);
        return;
      }
      UnwatchAllKeys(c);
      history := history + [Cleared(c)];
      ClearAgrees(old(clients), old(history), c, clients);
      TidyUnwatched(old(clients), c, old(clients[c]).(watched := []));
      var ran := RunQueue(clients[c].queue, effects);
      DiscardTransaction(c);
      return Ran(ran);
    }

    /** The loop of `execCommand` over the queue. */
    method RunQueue(queue: seq<Cmd>, effects: seq<seq<Place>>) returns (ran: seq<Cmd>)
      requires Valid() && |effects| == |queue|
      modifies this
      ensures Valid() && ran == queue && history == old(history) + Touches(effects)
      ensures OnlyMarked(old(clients), clients)
      ensures forall d | d in clients ::
                clients[d].dirtyCas <==> old(clients[d].dirtyCas) || HitByAny(old(clients[d].watched), effects)
    {
      hide Agrees, Linked, Tidy, HitBy, HitByAny;
      HitByNone();
      assert effects[..0] == [];
      ran := [];
      var j := 0;
      while j < |queue|
        invariant 0 <= j <= |queue| && Valid() && OnlyMarked(old(clients), clients)
        invariant ran == queue[..j] && history == old(history) + Touches(effects[..j])
        invariant forall d | d in clients ::
                    clients[d].dirtyCas <==> old(clients[d].dirtyCas) || HitByAny(old(clients[d].watched), effects[..j])
      {
        HitByMore(effects, j);
        ran := ran + [queue[j]];
        Call(effects[j]);
        assert effects[..j + 1][..j] == effects[..j];
        j := j + 1;
      }
      assert effects[..j] == effects;
    }

    /** A command executed by any client: it touches the keys it modifies, one by one. */
    method Call(places: seq<Place>)
      requires Valid()
      modifies this
      ensures Valid() && index == old(index) && history == old(history) + TouchEach(places)
      ensures OnlyMarked(old(clients), clients)
      ensures forall d | d in clients ::
                clients[d].dirtyCas <==> old(clients[d].dirtyCas) || HitBy(old(clients[d].watched), places)
    {
      hide Agrees, Linked, Mark, Tidy, HitBy;
      HitByNothing();
      assert places[..0] == [];
      var i := 0;
      while i < |places|
        invariant 0 <= i <= |places| && Valid() && index == old(index) && OnlyMarked(old(clients), clients)
        invariant history == old(history) + TouchEach(places[..i])
        invariant forall d | d in clients ::
                    clients[d].dirtyCas <==> old(clients[d].dirtyCas) || HitBy(old(clients[d].watched), places[..i])
      {
        ghost var before := clients;
        HitByOneMore(places, i);
        TouchWatchedKey(places[i]);
        MarkMarks(before, Watchers(before, {places[i]}));
        assert places[..i + 1][..i] == places[..i];
        i := i + 1;
      }
      assert places[..i] == places;
    }
  }

  /** Nothing about the clients has changed except that some may have become dirty. */
  ghost predicate OnlyMarked<Cmd>(clients: Clients<Cmd>, clients': Clients<Cmd>) {
    && clients'.Keys == clients.Keys
    && forall c | c in clients ::
         clients'[c] == clients[c].(dirtyCas := clients'[c].dirtyCas) && (clients[c].dirtyCas ==> clients'[c].dirtyCas)
  }

  lemma MarkMarks<Cmd>(clients: Clients<Cmd>, who: set<ClientId>)
    ensures OnlyMarked(clients, Mark(clients, who))
  {
  }

  lemma MarkedDirty<Cmd>(clients: Clients<Cmd>, who: set<ClientId>, p: Place)
    requires who == Watchers(clients, {p})
    ensures forall d | d in clients ::
              d in Mark(clients, who) && (Mark(clients, who)[d].dirtyCas <==> clients[d].dirtyCas || p in clients[d].watched)
  {
    forall d | d in clients
      ensures d in who <==> p in clients[d].watched
    {
      assert p in SetOf(clients[d].watched) <==> p in clients[d].watched;
    }
  }

  lemma FlushedDirty<Cmd>(
    clients: Clients<Cmd>, who: set<ClientId>, dbid: int, existing: set<Place>, flushed: set<Place>)
    requires flushed == set p | p in existing && (dbid == -1 || p.db == dbid)
    requires who == Watchers(clients, flushed)
    ensures forall d | d in clients ::
              d in Mark(clients, who) &&
              (Mark(clients, who)[d].dirtyCas <==>
                 clients[d].dirtyCas ||
                 exists p | p in clients[d].watched :: p in existing && (dbid == -1 || p.db == dbid))
  {
    forall d | d in clients
      ensures d in who <==> exists p | p in clients[d].watched :: p in existing && (dbid == -1 || p.db == dbid)
    {
      if d in who {
        var p :| p in flushed && p in SetOf(clients[d].watched);
        assert p in clients[d].watched;
      }
      if p :| p in clients[d].watched && p in existing && (dbid == -1 || p.db == dbid) {
        assert p in flushed && p in SetOf(clients[d].watched);
      }
    }
  }

  ghost function SetOf(s: seq<Place>): set<Place> {
    set p | p in s
  }

  /** The clients that watch one of the places. */
  ghost function Watchers<Cmd>(clients: Clients<Cmd>, places: set<Place>): set<ClientId> {
    set c | c in clients && !(places !! SetOf(clients[c].watched))
  }

  lemma FlagIsSpoiled<Cmd>(clients: Clients<Cmd>, h: seq<Event>, c: ClientId)
    requires Agrees(clients, h) && c in clients
    ensures clients[c].dirtyCas <==> Spoiled(h, c)
  {
    assert ClientAgrees(clients[c], c, h);
  }

  lemma TidyUnwatched<Cmd>(clients: Clients<Cmd>, c: ClientId, client: Client<Cmd>)
    requires Tidy(clients) && c in clients
    requires client.multi == clients[c].multi && client.queue == clients[c].queue
    requires client.dirtyExec == clients[c].dirtyExec
    ensures Tidy(clients[c := client])
  {
  }

  lemma MarkTidy<Cmd>(clients: Clients<Cmd>, who: set<ClientId>)
    requires Tidy(clients)
    ensures Tidy(Mark(clients, who))
  {
  }

  lemma MarkNone<Cmd>(clients: Clients<Cmd>)
    ensures Mark(clients, {}) == clients && Ids([]) == {}
  {
  }

  lemma HitIff(watched: seq<Place>, dbid: int, existing: set<Place>, flushed: set<Place>)
    requires flushed == set p | p in existing && (dbid == -1 || p.db == dbid)
    ensures (exists i | 0 <= i < |watched| :: watched[i] in existing && (dbid == -1 || watched[i].db == dbid))
        <==> !(flushed !! SetOf(watched))
  {
    if !(flushed !! SetOf(watched)) {
      var p :| p in flushed && p in SetOf(watched);
      var i :| 0 <= i < |watched| && watched[i] == p;
    }
    if i :| 0 <= i < |watched| && watched[i] in existing && (dbid == -1 || watched[i].db == dbid) {
      assert watched[i] in flushed && watched[i] in SetOf(watched);
    }
  }

  lemma MarkKeeps<Cmd>(clients: Clients<Cmd>, who: set<ClientId>, c: ClientId)
    requires c in clients
    ensures c in Mark(clients, who) && Mark(clients, who)[c].watched == clients[c].watched
  {
  }

  lemma MarkAnother<Cmd>(clients: Clients<Cmd>, who: set<ClientId>, c: ClientId)
    requires c in clients
    ensures c in Mark(clients, who)
    ensures var m := Mark(clients, who); m[c := m[c].(dirtyCas := true)] == Mark(clients, who + {c})
  {
  }

  lemma WatchersMarked<Cmd>(clients: Clients<Cmd>, who: set<ClientId>, places: set<Place>)
    requires forall c | c in clients :: c in who <==> !(places !! SetOf(clients[c].watched))
    ensures forall c | c in clients :: c in who <==> exists p :: p in places && p in clients[c].watched
  {
    forall c | c in clients
      ensures c in who <==> exists p :: p in places && p in clients[c].watched
    {
      if c in who {
        var p :| p in places && p in SetOf(clients[c].watched);
      }
    }
  }

  predicate Tidy<Cmd>(clients: Clients<Cmd>) {
    forall c | c in clients && !clients[c].multi :: clients[c].queue == [] && !clients[c].dirtyExec
  }

  lemma SameLinked<Cmd>(clients: Clients<Cmd>, clients': Clients<Cmd>, index: Index)
    requires Linked(clients, index) && clients'.Keys == clients.Keys
    requires forall c | c in clients :: clients'[c].watched == clients[c].watched
    ensures Linked(clients', index)
  {
  }

  lemma SameAgrees<Cmd>(clients: Clients<Cmd>, clients': Clients<Cmd>, h: seq<Event>)
    requires Agrees(clients, h) && clients'.Keys == clients.Keys
    requires forall c | c in clients ::
               clients'[c].watched == clients[c].watched && clients'[c].dirtyCas == clients[c].dirtyCas
    ensures Agrees(clients', h)
  {
    forall c | c in clients'
      ensures ClientAgrees(clients'[c], c, h)
    {
      assert ClientAgrees(clients[c], c, h);
    }
  }

  lemma DropClient<Cmd>(clients: Clients<Cmd>, index: Index, c: ClientId)
    requires Linked(clients, index) && c in clients && clients[c].watched == []
    ensures Linked(clients - {c}, index)
  {
  }

  /** The index finds exactly the clients that watch the key. */
  lemma WatchersOf<Cmd>(clients: Clients<Cmd>, index: Index, p: Place)
    requires Linked(clients, index)
    ensures p in index ==> forall c | c in index[p] :: c in clients
    ensures forall c | c in clients ::
              (p in index && c in index[p]) <==> exists q :: q in {p} && q in clients[c].watched
  {
    forall c | c in clients
      ensures (p in index && c in index[p]) <==> exists q :: q in {p} && q in clients[c].watched
    {
      LinkedInverse(clients, index, c, p);
      assert p in {p};
    }
  }

  function Ids(s: seq<ClientId>): set<ClientId> {
    set c | c in s
  }

  lemma MarkOne<Cmd>(before: Clients<Cmd>, clients: Clients<Cmd>, list: seq<ClientId>, i: nat)
    requires i < |list| && list[i] in before && clients == Mark(before, Ids(list[..i]))
    ensures list[i] in clients
    ensures clients[list[i] := clients[list[i]].(dirtyCas := true)] == Mark(before, Ids(list[..i + 1]))
  {
    assert list[..i + 1] == list[..i] + [list[i]];
    assert Ids(list[..i + 1]) == Ids(list[..i]) + {list[i]};
    MarkAnother(before, Ids(list[..i]), list[i]);
  }
}
