/** The sync pipeline of internal/ingress/controller: store changes become events, events
    pass the ring channel and the task queue, and a sync installs what it built. Every
    stage may drop, merge or skip work; the routing table converges all the same. */
module Pipeline {
  import opened Go
  import opened Types
  import opened Endpoints
  import opened Sorting
  import opened Builder
  import opened Ties
  import opened Routing
  import Store
  import TQ = TaskQueue

  /** A change of one Endpoints object that its handler has not been told of yet. */
  datatype EndpointsNote = EndpointsNote(prev: Ptr<EndpointsObject>, cur: Ptr<EndpointsObject>)

  /** The endpoints handlers push adds, deletes, and updates that change the subsets. */
  predicate Pushes(note: EndpointsNote) {
    note.prev.Nil? || note.cur.Nil? || note.prev.v.subsets != note.cur.v.subsets
  }

  /** What never changes in a run: the class setting, the services and DNS. */
  datatype World = World(ingressClass: string, services: map<string, Service>, resolvable: set<string>)

  datatype State = State(
    // the ingress informer: its cache, the part the handlers know of, what they were not told yet
    cache: Store.Cache, view: Store.Cache, notes: seq<Store.Notification>,
    derived: Store.Derived,
    left: Store.Derived,        // the part of it that lost deletes have left there
    pushing: bool,              // the ingress handler has updated the store and not pushed yet
    endpoints: map<string, EndpointsObject>, endpointNotes: seq<EndpointsNote>,
    ring: seq<string>,
    hand: Ptr<string>,          // the event loop has popped this event and not enqueued it yet
    q: TQ.TaskState, now: int,
    running: Configuration, target: Configuration,
    lastChange: int,            // when something that a sync reads last changed
    clean: bool)                // nothing has changed since the running sync began

  function Snap(w: World, s: State): Snapshot { Snapshot(w.services, s.endpoints, w.resolvable) }

  /** Something getConfiguration can return for this store. */
  ghost predicate Generates(w: World, s: State, listing: seq<Ingress>, c: Configuration) {
    Generated(Snap(w, s), s.derived, listing, c)
  }

  /** The handler's configuration is equal to one getConfiguration returns for the store. */
  ghost predicate Synced(w: World, s: State) {
    exists listing, c :: Generates(w, s, listing, c) && ConfigurationEqual(Ref(s.target), Ref(c))
  }

  ghost predicate Initial(s: State) {
    s == State(map[], map[], [], map[], map[], false, map[], [], [], Nil, TQ.EMPTY, s.now,
               Configuration(NilSlice), Configuration(NilSlice), 0, false) && s.now >= 0
  }

  // ---- Steps -----------------------------------------------------------------

  datatype Step =
    | Tick(d: nat)
    | IngressChange(note: Store.Notification)                        // the informer cache changes
    | IngressHandle                                                  // the handler updates the store
    | IngressPush(key: string)                                       // and pushes its event
    | EndpointsChange(key: string, cur: Ptr<EndpointsObject>)        // the endpoints cache changes
    | EndpointsHandle(key: string)                                   // the handler pushes, or does not
    | OtherPush(key: string)                                         // a pod event
    | Pop                                                            // the event loop takes an event
    | Enqueue                                                        // and enqueues its object
    | EnqueueTask(key: string)                                       // the forced initial sync
    | Take                                                           // the worker skips or begins
    | Finish(listing: seq<Ingress>, c: Configuration)                // the sync succeeds
    | Fail(installed: bool, listing: seq<Ingress>, c: Configuration) // the sync fails, its element is requeued
    | Release(e: TQ.Element)                                         // a requeued element is due

  function NewIngress(note: Store.Notification): Ptr<Store.Object> {
    match note
    case Added(obj) => Ref(obj)
    case Updated(_, cur) => Ref(cur)
    case Deleted(_) => Nil
  }

  function OldEndpoints(s: State, key: string): Ptr<EndpointsObject> {
    if key in s.endpoints then Ref(s.endpoints[key]) else Nil
  }

  /** What the running sync has built. If nothing changed since it began, it is what
      getConfiguration returns for the store; otherwise it mixes what was read at
      different times, and may be anything. */
  ghost predicate Builds(w: World, s: State, listing: seq<Ingress>, c: Configuration) {
    s.clean ==> Generates(w, s, listing, c)
  }

  ghost predicate Enabled(w: World, s: State, step: Step) {
    match step
    case IngressChange(note) =>
      && Store.Legal(s.cache, note)
      && (NewIngress(note).Ref? ==> Store.IsIngress(NewIngress(note).v) && Usable(NewIngress(note).v.ing))
    case IngressHandle =>
      && s.notes != [] && !s.pushing
      && Store.WellKeyed(s.view) && Store.Deliverable(s.notes[0]) && Store.Legal(s.view, s.notes[0])
    case IngressPush(_) => s.pushing
    case EndpointsChange(key, cur) => cur.Ref? || key in s.endpoints
    case EndpointsHandle(_) => s.endpointNotes != []
    case Pop => s.ring != [] && s.hand.Nil?
    case Enqueue => s.hand.Ref?
    case Take => s.q.worker.Idle? && s.q.wq.queue != []
    case Finish(listing, c) => s.q.worker.Busy? && Builds(w, s, listing, c)
    case Fail(_, listing, c) => s.q.worker.Busy? && Builds(w, s, listing, c)
    case Release(e) => e in s.q.delayed
    case _ => true
  }

  /** syncIngress after building: reload only when the configuration is not equal. */
  function Installed(s: State, c: Configuration): State {
    var same := ConfigurationEqual(Ref(s.running), Ref(c));
    s.(running := if same then s.running else c, target := if same then s.target else c)
  }

  ghost function IngressHandled(w: World, s: State): State
    requires Store.WellKeyed(s.view)
    requires s.notes != [] && Store.Deliverable(s.notes[0]) && Store.Legal(s.view, s.notes[0])
  {
    var (derived, push) := Store.Handle(w.ingressClass, s.derived, s.notes[0]);
    s.(view := Store.Replay(s.view, s.notes[0]), notes := s.notes[1..],
       derived := if push then derived else s.derived,
       left := Store.Remaining(w.ingressClass, s.view, s.left, s.notes[0]),
       pushing := s.pushing || push,
       lastChange := if push then s.now else s.lastChange, clean := s.clean && !push)
  }

  function EndpointsChanged(s: State, key: string, cur: Ptr<EndpointsObject>): State {
    var note := EndpointsNote(OldEndpoints(s, key), cur);
    s.(endpoints := if cur.Nil? then s.endpoints - {key} else s.endpoints[key := cur.v],
       endpointNotes := s.endpointNotes + [note],
       lastChange := if Pushes(note) then s.now else s.lastChange, clean := s.clean && !Pushes(note))
  }

  function EndpointsHandled(s: State, key: string): State
    requires s.endpointNotes != []
  {
    s.(endpointNotes := s.endpointNotes[1..],
       ring := if Pushes(s.endpointNotes[0]) then Store.Push(s.ring, key) else s.ring)
  }

  function Taken(s: State): State
    requires s.q.worker.Idle? && s.q.wq.queue != []
  {
    var q := TQ.Taken(s.q, s.now);
    s.(q := q, clean := s.clean || q.worker.Busy?)
  }

  ghost function Next(w: World, s: State, step: Step): State
    requires Enabled(w, s, step)
  {
    match step
    case Tick(d) => s.(now := s.now + d)
    case IngressChange(note) => s.(cache := Store.Replay(s.cache, note), notes := s.notes + [note])
    case IngressHandle => IngressHandled(w, s)
    case IngressPush(key) => s.(ring := Store.Push(s.ring, key), pushing := false)
    case EndpointsChange(key, cur) => EndpointsChanged(s, key, cur)
    case EndpointsHandle(key) => EndpointsHandled(s, key)
    case OtherPush(key) => s.(ring := Store.Push(s.ring, key))
    case Pop => s.(ring := s.ring[1..], hand := Ref(s.ring[0]))
    case Enqueue => s.(q := TQ.Enqueued(s.q, s.now, s.hand.v, true), hand := Nil)
    case EnqueueTask(key) => s.(q := TQ.Enqueued(s.q, s.now, key, false))
    case Take => Taken(s)
    case Finish(_, c) => Installed(s, c).(q := TQ.Finished(s.q, true, s.now))
    case Fail(installed, _, c) => (if installed then Installed(s, c) else s).(q := TQ.Finished(s.q, false, s.now))
    case Release(e) => s.(q := TQ.Released(s.q, e))
  }

  ghost predicate IsRun(w: World, s: State, steps: seq<Step>)
    decreases |steps|
  {
    steps == [] || (Enabled(w, s, steps[0]) && IsRun(w, Next(w, s, steps[0]), steps[1..]))
  }

  ghost function After(w: World, s: State, steps: seq<Step>): State
    requires IsRun(w, s, steps)
    decreases |steps|
  {
    if steps == [] then s else After(w, Next(w, s, steps[0]), steps[1..])
  }

  // ---- The invariant ---------------------------------------------------------

  /** An element stamped no earlier than `t` waits. */
  ghost predicate Fresh(q: TQ.TaskState, t: int) {
    exists e :: e in q.wq.dirty + q.delayed && e.timestamp >= t
  }

  ghost predicate PushOwed(notes: seq<EndpointsNote>) {
    exists i :: 0 <= i < |notes| && Pushes(notes[i])
  }

  /** Something on its way will make the worker look at the store again. */
  ghost predicate Owed(s: State) {
    s.pushing || PushOwed(s.endpointNotes) || s.ring != [] || s.hand.Ref? || Fresh(s.q, s.lastChange)
  }

  /** Either the table is right, or a sync reads the current store, or one is owed. */
  ghost predicate Covered(w: World, s: State) {
    if s.q.worker.Idle? then Synced(w, s) || Owed(s) else s.clean || Owed(s)
  }

  ghost predicate TimesInv(w: World, s: State) {
    && TQ.QueueInv(s.q, s.now)
    && 0 <= s.lastChange <= s.now
    && s.running == s.target
    && (s.q.worker.Busy? && !s.clean ==> s.q.worker.ts <= s.lastChange)
    && (s.q.lastSync > s.lastChange ==> Synced(w, s))
  }

  /** The derived store follows what the handlers were told, and the rest of the
      notifications lead from there to the cache. */
  ghost predicate StoreInv(w: World, s: State) {
    && Store.WellKeyed(s.view) && Store.LegalRun(s.view, s.notes) && Store.ReplayAll(s.view, s.notes) == s.cache
    && Store.AgreesBut(w.ingressClass, s.view, s.derived, s.left)
    && ViewUsable(s.view) && NotesUsable(s.notes) && Keyed(s.left)
  }

  ghost predicate Inv(w: World, s: State) {
    StoreInv(w, s) && TimesInv(w, s) && Covered(w, s)
  }

  /** What Synced and Owed depend on. */
  lemma SyncedFrame(w: World, s: State, s': State)
    requires Synced(w, s) && s'.derived == s.derived && s'.target == s.target
    requires forall listing :: AllUsable(Store.InOrder(listing)) ==>
               ServerMap(Snap(w, s'), Rules(Store.InOrder(listing))) ==
               ServerMap(Snap(w, s), Rules(Store.InOrder(listing)))
    ensures Synced(w, s')
  {
    var listing, c :| Generates(w, s, listing, c) && ConfigurationEqual(Ref(s.target), Ref(c));
    assert Generates(w, s', listing, c);
  }

  // ---- Endpoints that differ only in what routing ignores --------------------

  ghost predicate SameSubsets(a: map<string, EndpointsObject>, b: map<string, EndpointsObject>) {
    a.Keys == b.Keys && forall k :: k in a ==> a[k].subsets == b[k].subsets
  }

  lemma {:induction false} SameSubsetsSameEndpoints(a: Snapshot, b: Snapshot, svc: Service, k: nat, port: string)
    requires SameSubsets(a.endpoints, b.endpoints) && k <= |svc.ports|
    ensures EndpointsFrom(a, svc, k, port) == EndpointsFrom(b, svc, k, port)
    decreases |svc.ports| - k
  {
    if k < |svc.ports| {
      SameSubsetsSameEndpoints(a, b, svc, k + 1, port);
    }
  }

  lemma {:induction false} SameSubsetsSameUpstreams(a: Snapshot, b: Snapshot, rules: seq<HostRule>)
    requires a.services == b.services && a.resolvable == b.resolvable && SameSubsets(a.endpoints, b.endpoints)
    ensures Upstreams(a, rules) == Upstreams(b, rules)
  {
    if rules != [] {
      SameSubsetsSameUpstreams(a, b, rules[..|rules| - 1]);
      var t := rules[|rules| - 1].target;
      if t.SvcKey() in a.services {
        SameSubsetsSameEndpoints(a, b, a.services[t.SvcKey()], 0, t.port.String());
      }
      assert BackendFor(a, t) == BackendFor(b, t);
    }
  }

  /** A change the endpoints handler does not push cannot change what is built. */
  lemma SilentEndpointsChange(w: World, s: State, s': State)
    requires SameSubsets(s.endpoints, s'.endpoints) && s'.derived == s.derived && s'.target == s.target
    ensures Synced(w, s) ==> Synced(w, s')
  {
    if Synced(w, s) {
      forall listing | AllUsable(Store.InOrder(listing))
        ensures ServerMap(Snap(w, s'), Rules(Store.InOrder(listing))) ==
                ServerMap(Snap(w, s), Rules(Store.InOrder(listing)))
      {
        SameSubsetsSameUpstreams(Snap(w, s), Snap(w, s'), Rules(Store.InOrder(listing)));
      }
      SyncedFrame(w, s, s');
    }
  }

  // ---- The ingress side ------------------------------------------------------

  lemma {:induction false} LegalRunExtends(view: Store.Cache, notes: seq<Store.Notification>, note: Store.Notification)
    requires Store.LegalRun(view, notes) && Store.Legal(Store.ReplayAll(view, notes), note)
    ensures Store.LegalRun(view, notes + [note])
    ensures Store.ReplayAll(view, notes + [note]) == Store.Replay(Store.ReplayAll(view, notes), note)
    decreases |notes|
  {
    if notes == [] {
      assert notes + [note] == [note] && [note][1..] == [];
    } else {
      LegalRunExtends(Store.Replay(view, notes[0]), notes[1..], note);
      assert (notes + [note])[1..] == notes[1..] + [note];
    }
  }

  ghost predicate NotesUsable(notes: seq<Store.Notification>) {
    forall i :: 0 <= i < |notes| && NewIngress(notes[i]).Ref? ==>
      Store.IsIngress(NewIngress(notes[i]).v) && Usable(NewIngress(notes[i]).v.ing)
  }

  ghost predicate ViewUsable(view: Store.Cache)
    requires Store.WellKeyed(view)
  {
    forall k :: k in view ==> Usable(view[k].ing)
  }

  lemma NormalizedUsable(ing: Ingress)
    requires Usable(ing)
    ensures Usable(Store.Normalized(ing)) && Store.IngressKey(Store.Normalized(ing)) == Store.IngressKey(ing)
  {
    var n := Store.Normalized(ing);
    forall i | 0 <= i < |n.rules| ensures n.rules[i].http.Ref? && |n.rules[i].http.v| > 0 {
      assert n.rules[i] == Store.NormalizedRule(ing.rules[i]);
    }
  }

  lemma DerivedKeyed(w: World, s: State)
    requires StoreInv(w, s)
    ensures Keyed(s.derived)
  {
    forall k | k in s.derived ensures Usable(s.derived[k]) && Store.IngressKey(s.derived[k]) == k {
      assert Store.AgreesAt(w.ingressClass, s.view, s.derived, s.left, k);
      if k in s.view {
        NormalizedUsable(s.view[k].ing);
      }
    }
  }

  lemma LeftKeyed(ingressClass: string, view: Store.Cache, left: Store.Derived, note: Store.Notification)
    requires Store.WellKeyed(view) && ViewUsable(view) && Store.Legal(view, note) && Store.Deliverable(note) &&
             Keyed(left)
    ensures Keyed(Store.Remaining(ingressClass, view, left, note))
  {
    if Store.LostDelete(ingressClass, view, note) {
      NormalizedUsable(view[Store.KeyOf(note)].ing);
    }
  }

  lemma StoreHandle(w: World, s: State)
    requires StoreInv(w, s) && s.notes != [] && Store.Deliverable(s.notes[0]) && Store.Legal(s.view, s.notes[0])
    ensures StoreInv(w, IngressHandled(w, s))
  {
    var note := s.notes[0];
    Store.HandleIsExact(w.ingressClass, s.view, s.derived, s.left, note);
    if !Store.Handle(w.ingressClass, s.derived, note).1 {
      Store.SilentMeansUnchanged(w.ingressClass, s.derived, note);
    }
    LeftKeyed(w.ingressClass, s.view, s.left, note);
    assert NotesUsable(s.notes[1..]) by {
      assert forall i :: 0 <= i < |s.notes[1..]| ==> s.notes[1..][i] == s.notes[i + 1];
    }
    assert ViewUsable(Store.Replay(s.view, note));
  }

  lemma StoreChange(w: World, s: State, note: Store.Notification)
    requires StoreInv(w, s) && Store.Legal(s.cache, note) && NotesUsable([note])
    ensures StoreInv(w, s.(cache := Store.Replay(s.cache, note), notes := s.notes + [note]))
  {
    LegalRunExtends(s.view, s.notes, note);
    assert [note][0] == note;
    assert NotesUsable(s.notes + [note]);
  }

  /** The steps of the task queue. */
  predicate QueueStep(step: Step) {
    step.Enqueue? || step.EnqueueTask? || step.Take? || step.Finish? || step.Fail? || step.Release?
  }

  predicate SameStore(s: State, s': State) {
    s'.cache == s.cache && s'.view == s.view && s'.notes == s.notes && s'.derived == s.derived && s'.left == s.left
  }

  lemma InstallKeepsStore(s: State, c: Configuration)
    ensures SameStore(s, Installed(s, c))
  {
  }

  lemma QueueStepsKeepStore(w: World, s: State, step: Step)
    requires Enabled(w, s, step) && QueueStep(step)
    ensures SameStore(s, Next(w, s, step))
  {
    match step
    case Finish(_, c) => InstallKeepsStore(s, c);
    case Fail(_, _, c) => InstallKeepsStore(s, c);
    case _ =>
  }

  lemma EventStepsKeepStore(w: World, s: State, step: Step)
    requires Enabled(w, s, step) && !QueueStep(step) && !step.IngressChange? && !step.IngressHandle?
    ensures SameStore(s, Next(w, s, step))
  {
  }

  lemma OtherStepsKeepStore(w: World, s: State, step: Step)
    requires Enabled(w, s, step) && !step.IngressChange? && !step.IngressHandle?
    ensures SameStore(s, Next(w, s, step))
  {
    if QueueStep(step) {
      QueueStepsKeepStore(w, s, step);
    } else {
      EventStepsKeepStore(w, s, step);
    }
  }

  lemma StoreStep(w: World, s: State, step: Step)
    requires StoreInv(w, s) && Enabled(w, s, step)
    ensures StoreInv(w, Next(w, s, step))
  {
    if step.IngressChange? {
      StoreChange(w, s, step.note);
    } else if step.IngressHandle? {
      StoreHandle(w, s);
    } else {
      OtherStepsKeepStore(w, s, step);
      StoreFrame(w, s, Next(w, s, step));
    }
  }

  lemma StoreFrame(w: World, s: State, s': State)
    requires StoreInv(w, s) && SameStore(s, s')
    ensures StoreInv(w, s')
  {
  }

  // ---- The queue side --------------------------------------------------------

  /** A successful or failed sync that read an unchanged store leaves the table right. */
  lemma InstallSyncs(w: World, s: State, listing: seq<Ingress>, c: Configuration)
    requires s.running == s.target && Generates(w, s, listing, c)
    ensures Synced(w, Installed(s, c))
  {
    var s' := Installed(s, c);
    ConfigurationEqualIsEquivalence();
    assert Generates(w, s', listing, c);
    assert ConfigurationEqual(Ref(s'.target), Ref(c));
  }

  lemma SyncedOnly(w: World, s: State, s': State)
    requires s'.derived == s.derived && s'.target == s.target && s'.endpoints == s.endpoints
    ensures Synced(w, s) ==> Synced(w, s')
  {
    if Synced(w, s) {
      SyncedFrame(w, s, s');
    }
  }

  lemma FreshKept(q: TQ.TaskState, q': TQ.TaskState, t: int)
    requires Fresh(q, t) && q.wq.dirty + q.delayed <= q'.wq.dirty + q'.delayed
    ensures Fresh(q', t)
  {
    var e :| e in q.wq.dirty + q.delayed && e.timestamp >= t;
    assert e in q'.wq.dirty + q'.delayed;
  }

  lemma TakeStep(w: World, s: State)
    requires TimesInv(w, s) && Covered(w, s) && s.q.worker.Idle? && s.q.wq.queue != []
    ensures TimesInv(w, Taken(s)) && Covered(w, Taken(s))
  {
    var s' := Taken(s);
    TQ.TakenKeepsQueueInv(s.q, s.now);
    SyncedOnly(w, s, s');
    if s'.q.worker.Idle? && Fresh(s.q, s.lastChange) {
      var e :| e in s.q.wq.dirty + s.q.delayed && e.timestamp >= s.lastChange;
      if e != s.q.wq.queue[0] || e in s.q.delayed {
        assert e in s'.q.wq.dirty + s'.q.delayed;
      }
    }
  }

  lemma FinishStep(w: World, s: State, listing: seq<Ingress>, c: Configuration)
    requires TimesInv(w, s) && Covered(w, s) && s.q.worker.Busy? && Builds(w, s, listing, c)
    ensures var s' := Installed(s, c).(q := TQ.Finished(s.q, true, s.now)); TimesInv(w, s') && Covered(w, s')
  {
    var s' := Installed(s, c).(q := TQ.Finished(s.q, true, s.now));
    TQ.FinishedKeepsQueueInv(s.q, true, s.now);
    if s.clean {
      InstallSyncs(w, s, listing, c);
      SyncedOnly(w, Installed(s, c), s');
    } else if Fresh(s.q, s.lastChange) {
      FreshKept(s.q, s'.q, s.lastChange);
    }
  }

  lemma FailStep(w: World, s: State, installed: bool, listing: seq<Ingress>, c: Configuration)
    requires TimesInv(w, s) && Covered(w, s) && s.q.worker.Busy? && Builds(w, s, listing, c)
    ensures var s' := (if installed then Installed(s, c) else s).(q := TQ.Finished(s.q, false, s.now));
            TimesInv(w, s') && Covered(w, s')
  {
    var s' := (if installed then Installed(s, c) else s).(q := TQ.Finished(s.q, false, s.now));
    TQ.FinishedKeepsQueueInv(s.q, false, s.now);
    var mid := if installed then Installed(s, c) else s;
    if s.clean && installed {
      InstallSyncs(w, s, listing, c);
    }
    SyncedOnly(w, mid, s');
    var e := TQ.Element(s.q.worker.item.key, s.now);
    assert e in s'.q.wq.dirty + s'.q.delayed;
  }

  /** A step of the queue that only adds waiting elements. */
  lemma WaitingStep(w: World, s: State, s': State)
    requires TimesInv(w, s) && Covered(w, s)
    requires s' == s.(q := s'.q, hand := s'.hand) && TQ.QueueInv(s'.q, s.now)
    requires s'.q.worker == s.q.worker && s'.q.lastSync == s.q.lastSync
    requires s.q.wq.dirty + s.q.delayed <= s'.q.wq.dirty + s'.q.delayed
    requires s'.hand == s.hand || Fresh(s'.q, s.now)
    ensures TimesInv(w, s') && Covered(w, s')
  {
    SyncedOnly(w, s, s');
    if Fresh(s.q, s.lastChange) {
      FreshKept(s.q, s'.q, s.lastChange);
    }
    if Fresh(s'.q, s.now) {
      var e :| e in s'.q.wq.dirty + s'.q.delayed && e.timestamp >= s.now;
      assert Fresh(s'.q, s.lastChange);
    }
  }

  lemma EnqueueStep(w: World, s: State, key: string, skippable: bool, hand: Ptr<string>)
    requires TimesInv(w, s) && Covered(w, s)
    ensures var s' := s.(q := TQ.Enqueued(s.q, s.now, key, skippable), hand := hand); TimesInv(w, s') && Covered(w, s')
  {
    var e := TQ.Element(key, if skippable then s.now else s.now + TQ.DAY);
    var s' := s.(q := TQ.Enqueued(s.q, s.now, key, skippable), hand := hand);
    TQ.EnqueuedKeepsQueueInv(s.q, s.now, key, skippable);
    TQ.AddKeepsValid(s.q.wq, e);
    assert e in s'.q.wq.dirty + s'.q.delayed && e.timestamp >= s.now;
    WaitingStep(w, s, s');
  }

  lemma ReleaseStep(w: World, s: State, e: TQ.Element)
    requires TimesInv(w, s) && Covered(w, s) && e in s.q.delayed
    ensures var s' := s.(q := TQ.Released(s.q, e)); TimesInv(w, s') && Covered(w, s')
  {
    TQ.ReleasedKeepsQueueInv(s.q, e, s.now);
    WaitingStep(w, s, s.(q := TQ.Released(s.q, e)));
  }

  lemma EndpointsChangeStep(w: World, s: State, key: string, cur: Ptr<EndpointsObject>)
    requires TimesInv(w, s) && Covered(w, s)
    ensures var s' := EndpointsChanged(s, key, cur); TimesInv(w, s') && Covered(w, s')
  {
    var s' := EndpointsChanged(s, key, cur);
    var note := EndpointsNote(OldEndpoints(s, key), cur);
    assert s'.endpointNotes[|s.endpointNotes|] == note;
    if !Pushes(note) {
      SilentEndpointsChange(w, s, s');
      PushOwedStays(s.endpointNotes, note);
    }
  }

  lemma PushOwedStays(notes: seq<EndpointsNote>, note: EndpointsNote)
    ensures PushOwed(notes) ==> PushOwed(notes + [note])
  {
    if PushOwed(notes) {
      var i :| 0 <= i < |notes| && Pushes(notes[i]);
      assert (notes + [note])[i] == notes[i];
    }
  }

  lemma PushStillOwed(notes: seq<EndpointsNote>)
    requires notes != []
    ensures PushOwed(notes) ==> Pushes(notes[0]) || PushOwed(notes[1..])
  {
    if PushOwed(notes) && !Pushes(notes[0]) {
      var i :| 0 <= i < |notes| && Pushes(notes[i]);
      assert notes[1..][i - 1] == notes[i];
    }
  }

  /** A change that the ingress handler makes and has yet to push. */
  lemma ChangeStep(w: World, s: State, s': State)
    requires TimesInv(w, s) && s'.q == s.q && s'.now == s.now && s'.running == s.running && s'.target == s.target
    requires s'.lastChange == s.now && !s'.clean && s'.pushing
    ensures TimesInv(w, s') && Covered(w, s')
  {
  }

  /** Steps that change nothing a sync reads and lose no event. */
  lemma EventStep(w: World, s: State, s': State)
    requires TimesInv(w, s) && Covered(w, s) && s'.now >= s.now
    requires s' == s.(now := s'.now, cache := s'.cache, view := s'.view, notes := s'.notes, left := s'.left,
                      pushing := s'.pushing, endpointNotes := s'.endpointNotes, ring := s'.ring, hand := s'.hand)
    requires s.pushing || PushOwed(s.endpointNotes) || s.ring != [] || s.hand.Ref? ==>
             s'.pushing || PushOwed(s'.endpointNotes) || s'.ring != [] || s'.hand.Ref?
    ensures TimesInv(w, s') && Covered(w, s')
  {
    SyncedOnly(w, s, s');
  }

  lemma QueueStepKeepsCover(w: World, s: State, step: Step)
    requires TimesInv(w, s) && Covered(w, s) && Enabled(w, s, step) && QueueStep(step)
    ensures TimesInv(w, Next(w, s, step)) && Covered(w, Next(w, s, step))
  {
    if step.Take? {
      TakeStep(w, s);
    } else if step.Finish? {
      FinishStep(w, s, step.listing, step.c);
    } else if step.Fail? {
      FailStep(w, s, step.installed, step.listing, step.c);
    } else if step.Enqueue? {
      EnqueueStep(w, s, s.hand.v, true, Nil);
    } else if step.EnqueueTask? {
      EnqueueStep(w, s, step.key, false, s.hand);
    } else {
      ReleaseStep(w, s, step.e);
    }
  }

  lemma HandleStep(w: World, s: State)
    requires TimesInv(w, s) && Covered(w, s) && Enabled(w, s, IngressHandle)
    ensures TimesInv(w, IngressHandled(w, s)) && Covered(w, IngressHandled(w, s))
  {
    if Store.Handle(w.ingressClass, s.derived, s.notes[0]).1 {
      ChangeStep(w, s, IngressHandled(w, s));
    } else {
      EventStep(w, s, IngressHandled(w, s));
    }
  }

  lemma EventStepKeepsCover(w: World, s: State, step: Step)
    requires TimesInv(w, s) && Covered(w, s) && Enabled(w, s, step) && !QueueStep(step)
    ensures TimesInv(w, Next(w, s, step)) && Covered(w, Next(w, s, step))
  {
    if step.IngressHandle? {
      HandleStep(w, s);
    } else if step.EndpointsChange? {
      EndpointsChangeStep(w, s, step.key, step.cur);
    } else if step.EndpointsHandle? {
      PushStillOwed(s.endpointNotes);
      EventStep(w, s, EndpointsHandled(s, step.key));
    } else {
      EventStep(w, s, Next(w, s, step));
    }
  }

  lemma StepKeepsCover(w: World, s: State, step: Step)
    requires TimesInv(w, s) && Covered(w, s) && Enabled(w, s, step)
    ensures TimesInv(w, Next(w, s, step)) && Covered(w, Next(w, s, step))
  {
    if QueueStep(step) {
      QueueStepKeepsCover(w, s, step);
    } else {
      EventStepKeepsCover(w, s, step);
    }
  }

  lemma StepKeepsInv(w: World, s: State, step: Step)
    requires Inv(w, s) && Enabled(w, s, step)
    ensures Inv(w, Next(w, s, step))
  {
    StoreStep(w, s, step);
    StepKeepsCover(w, s, step);
  }

  lemma InitialInv(w: World, s: State)
    requires Initial(s)
    ensures Inv(w, s)
  {
    assert Store.InOrder([]) == [];
    assert Rules([]) == [];
    assert Generates(w, s, [], Configuration(NilSlice));
    ConfigurationEqualIsEquivalence();
    assert ConfigurationEqual(Ref(s.target), Ref(Configuration(NilSlice)));
  }

  lemma {:induction false} RunKeepsInv(w: World, s: State, steps: seq<Step>)
    requires Inv(w, s) && IsRun(w, s, steps)
    ensures Inv(w, After(w, s, steps))
    decreases |steps|
  {
    if steps != [] {
      StepKeepsInv(w, s, steps[0]);
      RunKeepsInv(w, Next(w, s, steps[0]), steps[1..]);
    }
  }

  // ---- Convergence -----------------------------------------------------------

  /** Nothing is on its way and no sync runs. */
  ghost predicate Quiescent(s: State) {
    && s.notes == [] && !s.pushing && s.endpointNotes == [] && s.ring == [] && s.hand.Nil?
    && s.q.wq.queue == [] && s.q.delayed == {} && s.q.worker.Idle?
  }

  /** No delete of the run is lost. */
  ghost predicate NothingLost(w: World, s: State, steps: seq<Step>)
    requires IsRun(w, s, steps)
    decreases |steps|
  {
    steps == [] || (
      && (steps[0].IngressChange? ==>
            Store.WellKeyed(s.cache) && !Store.LostDelete(w.ingressClass, s.cache, steps[0].note))
      && NothingLost(w, Next(w, s, steps[0]), steps[1..]))
  }

  /** Nothing is left, and nothing on its way to the handlers is lost. */
  ghost predicate Lossless(w: World, s: State)
    requires StoreInv(w, s)
  {
    s.left == map[] && Store.NoneLost(w.ingressClass, s.view, s.notes)
  }

  lemma {:induction false} NoneLostExtends(ingressClass: string, view: Store.Cache, notes: seq<Store.Notification>,
                                           note: Store.Notification)
    requires Store.WellKeyed(view) && Store.LegalRun(view, notes) && Store.LegalRun(view, notes + [note])
    requires Store.WellKeyed(Store.ReplayAll(view, notes)) && Store.Legal(Store.ReplayAll(view, notes), note)
    requires Store.NoneLost(ingressClass, view, notes)
    requires !Store.LostDelete(ingressClass, Store.ReplayAll(view, notes), note)
    ensures Store.NoneLost(ingressClass, view, notes + [note])
    decreases |notes|
  {
    if notes == [] {
      assert notes + [note] == [note] && [note][1..] == [];
    } else {
      Store.LegalFacts(view, notes[0]);
      assert (notes + [note])[1..] == notes[1..] + [note];
      NoneLostExtends(ingressClass, Store.Replay(view, notes[0]), notes[1..], note);
    }
  }

  lemma LosslessChange(w: World, s: State, note: Store.Notification)
    requires StoreInv(w, s) && Lossless(w, s) && Store.WellKeyed(s.cache) && Store.Legal(s.cache, note)
    requires !Store.LostDelete(w.ingressClass, s.cache, note) && NotesUsable([note])
    ensures var s' := s.(cache := Store.Replay(s.cache, note), notes := s.notes + [note]);
            StoreInv(w, s') && Lossless(w, s')
  {
    StoreChange(w, s, note);
    NoneLostExtends(w.ingressClass, s.view, s.notes, note);
  }

  lemma LosslessHandle(w: World, s: State)
    requires StoreInv(w, s) && Lossless(w, s) && s.notes != []
    requires Store.Deliverable(s.notes[0]) && Store.Legal(s.view, s.notes[0])
    ensures StoreInv(w, IngressHandled(w, s)) && Lossless(w, IngressHandled(w, s))
  {
    StoreHandle(w, s);
  }

  lemma LosslessStep(w: World, s: State, step: Step)
    requires StoreInv(w, s) && Enabled(w, s, step) && Lossless(w, s)
    requires step.IngressChange? ==> Store.WellKeyed(s.cache) && !Store.LostDelete(w.ingressClass, s.cache, step.note)
    ensures StoreInv(w, Next(w, s, step)) && Lossless(w, Next(w, s, step))
  {
    if step.IngressChange? {
      LosslessChange(w, s, step.note);
    } else if step.IngressHandle? {
      LosslessHandle(w, s);
    } else {
      OtherStepsKeepStore(w, s, step);
      StoreFrame(w, s, Next(w, s, step));
    }
  }

  lemma {:induction false} NothingIsLeft(w: World, s: State, steps: seq<Step>)
    requires StoreInv(w, s) && Lossless(w, s) && IsRun(w, s, steps) && NothingLost(w, s, steps)
    ensures After(w, s, steps).left == map[]
    decreases |steps|
  {
    if steps != [] {
      LosslessStep(w, s, steps[0]);
      NothingIsLeft(w, Next(w, s, steps[0]), steps[1..]);
    }
  }

  /** In every reachable quiescent state, whatever was dropped, merged, skipped or changed
      mid-sync: the table the handler routes by is equal to what getConfiguration returns for
      the derived store and the current endpoints; and the derived store is the class-valid
      part of the informer cache and what lost deletes have left, so it agrees with
      the cache exactly when nothing is left, and in every run without such deletes. */
  lemma Convergence(w: World, s0: State, steps: seq<Step>)
    requires Initial(s0) && IsRun(w, s0, steps) && Quiescent(After(w, s0, steps))
    ensures Synced(w, After(w, s0, steps))
    ensures var s := After(w, s0, steps);
            && Store.WellKeyed(s.cache) && Store.AgreesBut(w.ingressClass, s.cache, s.derived, s.left)
            && (Store.Agrees(w.ingressClass, s.cache, s.derived) <==> s.left == map[])
            && (NothingLost(w, s0, steps) ==> s.left == map[])
  {
    var s := After(w, s0, steps);
    InitialInv(w, s0);
    RunKeepsInv(w, s0, steps);
    QuiescentSynced(w, s);
    Store.AgreesIffNothingLeft(w.ingressClass, s.cache, s.derived, s.left);
    if NothingLost(w, s0, steps) {
      NothingIsLeft(w, s0, steps);
    }
  }

  lemma QuiescentSynced(w: World, s: State)
    requires Inv(w, s) && Quiescent(s)
    ensures Synced(w, s) && s.view == s.cache
  {
    assert s.q.wq.dirty == {} by {
      assert forall e :: e in s.q.wq.dirty ==> e in s.q.wq.queue;
    }
  }

  /** The next sync, whatever it lists and builds, would reload nothing. */
  ghost predicate Settled(w: World, s: State) {
    forall listing, c :: Generates(w, s, listing, c) ==> Installed(s, c) == s
  }

  lemma InstallsNothingIff(s: State, c: Configuration)
    requires s.running == s.target
    ensures Installed(s, c) == s <==> ConfigurationEqual(Ref(s.target), Ref(c))
  {
    ConfigurationEqualLaws(Ref(c), Ref(c), Ref(c));
  }

  lemma SettledPair(w: World, s: State, l1: seq<Ingress>, c1: Configuration, l2: seq<Ingress>, c2: Configuration)
    requires Settled(w, s) && s.running == s.target && Generates(w, s, l1, c1) && Generates(w, s, l2, c2)
    ensures ConfigurationEqual(Ref(c1), Ref(c2))
  {
    InstallsNothingIff(s, c1);
    InstallsNothingIff(s, c2);
    ConfigurationEqualLaws(Ref(s.target), Ref(c1), Ref(s.target));
    ConfigurationEqualLaws(Ref(c1), Ref(s.target), Ref(c2));
  }

  lemma NeverReloadsSettles(w: World, s: State, l: seq<Ingress>, d: Configuration)
    requires Synced(w, s) && s.running == s.target && NeverReloads(Snap(w, s), s.derived) && Generates(w, s, l, d)
    ensures Installed(s, d) == s
  {
    var listing, c :| Generates(w, s, listing, c) && ConfigurationEqual(Ref(s.target), Ref(c));
    ConfigurationEqualLaws(Ref(s.target), Ref(c), Ref(d));
    InstallsNothingIff(s, d);
  }

  lemma SettledIffNeverReloads(w: World, s: State)
    requires Synced(w, s) && s.running == s.target
    ensures Settled(w, s) <==> NeverReloads(Snap(w, s), s.derived)
  {
    if Settled(w, s) {
      forall l1, l2, c1, c2 | Generated(Snap(w, s), s.derived, l1, c1) && Generated(Snap(w, s), s.derived, l2, c2)
        ensures ConfigurationEqual(Ref(c1), Ref(c2))
      {
        SettledPair(w, s, l1, c1, l2, c2);
      }
    } else {
      var l, d :| Generates(w, s, l, d) && Installed(s, d) != s;
      if NeverReloads(Snap(w, s), s.derived) {
        NeverReloadsSettles(w, s, l, d);
      }
    }
  }

  /** In every reachable quiescent state, the next sync is bound to reload nothing exactly when
      ingresses with equal creation times do no harm; distinct times never do. */
  lemma ConvergenceIsStable(w: World, s0: State, steps: seq<Step>)
    requires Initial(s0) && IsRun(w, s0, steps) && Quiescent(After(w, s0, steps))
    ensures var s := After(w, s0, steps);
            && Keyed(s.derived)
            && (Settled(w, s) <==> TiesAreHarmless(Snap(w, s), s.derived))
            && (Store.DistinctTimes(s.derived) ==> Settled(w, s))
  {
    var s := After(w, s0, steps);
    InitialInv(w, s0);
    RunKeepsInv(w, s0, steps);
    QuiescentSynced(w, s);
    DerivedKeyed(w, s);
    SettledIffNeverReloads(w, s);
    NeverReloadsIffTiesAreHarmless(Snap(w, s), s.derived);
    if Store.DistinctTimes(s.derived) {
      DistinctTimesAreHarmless(Snap(w, s), s.derived);
    }
  }

  /** A class-valid ingress of the cache has a rule for the host. */
  ghost predicate CacheNames(w: World, cache: Store.Cache, host: string)
    requires Store.WellKeyed(cache)
  {
    exists k :: k in cache && Store.OfClass(cache[k].ing, w.ingressClass) && Names(cache[k].ing, host)
  }

  lemma NormalizedNames(ing: Ingress, host: string)
    ensures Names(Store.Normalized(ing), host) <==> Names(ing, host)
  {
    var n := Store.Normalized(ing);
    assert forall j :: 0 <= j < |ing.rules| ==> n.rules[j].host == ing.rules[j].host;
  }

  lemma ListingNames(w: World, cache: Store.Cache, derived: Store.Derived, listing: seq<Ingress>, host: string)
    requires Store.WellKeyed(cache) && Store.Agrees(w.ingressClass, cache, derived) && Store.Lists(listing, derived)
    ensures (exists i :: 0 <= i < |listing| && Names(listing[i], host)) <==> CacheNames(w, cache, host)
  {
    if i :| 0 <= i < |listing| && Names(listing[i], host) {
      NormalizedNames(cache[Store.IngressKey(listing[i])].ing, host);
    }
    if k :| k in cache && Store.OfClass(cache[k].ing, w.ingressClass) && Names(cache[k].ing, host) {
      NormalizedNames(cache[k].ing, host);
      var i :| 0 <= i < |listing| && Store.IngressKey(listing[i]) == k;
      assert Names(listing[i], host);
    }
  }

  lemma OrderNames(listing: seq<Ingress>, host: string)
    ensures (exists i :: 0 <= i < |Store.InOrder(listing)| && Names(Store.InOrder(listing)[i], host)) <==>
              (exists i :: 0 <= i < |listing| && Names(listing[i], host))
  {
    Store.InOrderSorts(listing);
    if i :| 0 <= i < |listing| && Names(listing[i], host) {
      SameElements(listing, Store.InOrder(listing), listing[i]);
    }
    if i :| 0 <= i < |Store.InOrder(listing)| && Names(Store.InOrder(listing)[i], host) {
      SameElements(Store.InOrder(listing), listing, Store.InOrder(listing)[i]);
    }
  }

  /** A host routes as the ingresses ask for: it is unknown exactly when no rule names it, and
      otherwise has exactly the sockets that the store serves for its routing rule's first path. */
  ghost predicate RoutesAsAsked(w: World, s: State, listing: seq<Ingress>, host: string)
    requires Routable(s.target) && AllUsable(Store.InOrder(listing))
  {
    var ings, route := Store.InOrder(listing), Route(s.target, host);
    && (route.NilSlice? <==> host == "" || !HasRule(ings, host))
    && (route.Elems? ==> RoutedAsAsked(Snap(w, s), ings, host, route))
  }

  /** End to end: in every reachable quiescent state the handler can route, and routes every
      host as the stored ingresses ask for in some listing order. If nothing is left of a lost
      delete, as in every run without one, a host is unknown exactly when no class-valid
      ingress of the cache names it. */
  lemma RoutingConverges(w: World, s0: State, steps: seq<Step>) returns (listing: seq<Ingress>)
    requires Initial(s0) && IsRun(w, s0, steps) && Quiescent(After(w, s0, steps))
    ensures var s := After(w, s0, steps);
            && Routable(s.target) && Store.Lists(listing, s.derived) && AllUsable(Store.InOrder(listing))
            && (forall host :: RoutesAsAsked(w, s, listing, host))
            && Store.WellKeyed(s.cache)
            && (NothingLost(w, s0, steps) ==> s.left == map[])
            && (s.left == map[] ==>
                  forall host :: Route(s.target, host).NilSlice? <==> host == "" || !CacheNames(w, s.cache, host))
  {
    var s := After(w, s0, steps);
    Convergence(w, s0, steps);
    var c: Configuration;
    listing, c :| Generates(w, s, listing, c) && ConfigurationEqual(Ref(s.target), Ref(c));
    LookupExact(Snap(w, s), Store.InOrder(listing), c, "");
    EqualToRoutable(s.target, c);
    forall host ensures RoutesAsAsked(w, s, listing, host) {
      EqualRoutesAsAsked(w, s, listing, c, host);
    }
    if s.left == map[] {
      forall host ensures Route(s.target, host).NilSlice? <==> host == "" || !CacheNames(w, s.cache, host) {
        UnknownIffUnnamed(w, s, listing, host);
      }
    }
  }

  /** What equals a generated configuration routes as it does. */
  lemma EqualRoutesAsAsked(w: World, s: State, listing: seq<Ingress>, c: Configuration, host: string)
    requires Generates(w, s, listing, c) && Routable(s.target) && ConfigurationEqual(Ref(s.target), Ref(c))
    ensures RoutesAsAsked(w, s, listing, host)
  {
    var ings := Store.InOrder(listing);
    LookupExact(Snap(w, s), ings, c, host);
    EqualConfigurationsRouteAlike(s.target, c, host);
    if Route(c, host).Elems? {
      var m: nat, l: nat :| RoutingRule(ings, host, m, l) && Serves(Snap(w, s), ings[m], l, Route(c, host));
      assert Serves(Snap(w, s), ings[m], l, Route(s.target, host));
    }
  }

  lemma UnknownIffUnnamed(w: World, s: State, listing: seq<Ingress>, host: string)
    requires Store.WellKeyed(s.cache) && Store.Agrees(w.ingressClass, s.cache, s.derived)
    requires Store.Lists(listing, s.derived) && AllUsable(Store.InOrder(listing))
    requires Routable(s.target) && RoutesAsAsked(w, s, listing, host)
    ensures Route(s.target, host).NilSlice? <==> host == "" || !CacheNames(w, s.cache, host)
  {
    OrderNames(listing, host);
    ListingNames(w, s.cache, s.derived, listing, host);
  }

  // ---- Draining --------------------------------------------------------------

  /** Steps the pipeline takes by itself, when nothing changes and no sync fails. */
  predicate Internal(step: Step) {
    step.IngressHandle? || step.IngressPush? || step.EndpointsHandle? || step.Pop? || step.Enqueue? ||
    step.Take? || step.Finish? || step.Release?
  }

  predicate AllInternal(steps: seq<Step>) {
    forall i :: 0 <= i < |steps| ==> Internal(steps[i])
  }

  /** How far the work in the pipeline still has to go. */
  function Measure(s: State): nat {
    6 * |s.notes| + 5 * Bit(s.pushing) + 5 * |s.endpointNotes| + 4 * |s.ring| + 3 * Bit(s.hand.Ref?)
    + 3 * |s.q.delayed| + 2 * |s.q.wq.dirty| + Bit(s.q.worker.Busy?)
  }

  lemma QueueMeasure(s: State, e: TQ.Element)
    requires s.q.wq.Valid()
    ensures |s.q.wq.Add(e).dirty| <= |s.q.wq.dirty| + 1
    ensures s.q.wq.queue != [] ==> |s.q.wq.dirty - {s.q.wq.queue[0]}| == |s.q.wq.dirty| - 1
    ensures e in s.q.delayed ==> |s.q.delayed - {e}| == |s.q.delayed| - 1
  {
    TQ.AddKeepsValid(s.q.wq, e);
    if s.q.wq.queue != [] {
      TQ.GetKeepsValid(s.q.wq);
    }
  }

  lemma TakeFalls(s: State)
    requires TQ.QueueInv(s.q, s.now) && s.q.worker.Idle? && s.q.wq.queue != []
    ensures Measure(Taken(s)) < Measure(s)
  {
    QueueMeasure(s, s.q.wq.queue[0]);
    TQ.TakenKeepsQueueInv(s.q, s.now);
  }

  lemma EnqueueFalls(s: State)
    requires TQ.QueueInv(s.q, s.now) && s.hand.Ref?
    ensures Measure(s.(q := TQ.Enqueued(s.q, s.now, s.hand.v, true), hand := Nil)) < Measure(s)
  {
    QueueMeasure(s, TQ.Element(s.hand.v, s.now));
  }

  lemma ReleaseFalls(s: State, e: TQ.Element)
    requires TQ.QueueInv(s.q, s.now) && e in s.q.delayed
    ensures Measure(s.(q := TQ.Released(s.q, e))) < Measure(s)
  {
    QueueMeasure(s, e);
  }

  lemma FinishFalls(s: State, c: Configuration)
    requires TQ.QueueInv(s.q, s.now) && s.q.worker.Busy?
    ensures Measure(Installed(s, c).(q := TQ.Finished(s.q, true, s.now))) < Measure(s)
  {
    TQ.FinishedKeepsQueueInv(s.q, true, s.now);
  }

  lemma QueueStepFalls(w: World, s: State, step: Step)
    requires TQ.QueueInv(s.q, s.now) && Enabled(w, s, step) && Internal(step) && QueueStep(step)
    ensures Measure(Next(w, s, step)) < Measure(s)
  {
    if step.Enqueue? {
      EnqueueFalls(s);
    } else if step.Release? {
      ReleaseFalls(s, step.e);
    } else if step.Take? {
      TakeFalls(s);
    } else {
      FinishFalls(s, step.c);
    }
  }

  /** Every internal step makes progress. */
  lemma MeasureFalls(w: World, s: State, step: Step)
    requires Inv(w, s) && Enabled(w, s, step) && Internal(step)
    ensures Measure(Next(w, s, step)) < Measure(s)
  {
    if QueueStep(step) {
      QueueStepFalls(w, s, step);
    }
  }

  /** A running sync can always come to its end. */
  lemma BuildExists(w: World, s: State) returns (listing: seq<Ingress>, c: Configuration)
    requires StoreInv(w, s)
    ensures Generates(w, s, listing, c)
  {
    DerivedKeyed(w, s);
    listing := Store.ListingExists(s.derived);
    var sorted := Store.InOrder(listing);
    Store.InOrderSorts(listing);
    forall i | 0 <= i < |sorted| ensures Usable(sorted[i]) {
      SameElements(sorted, listing, sorted[i]);
    }
    c := ConfigurationExists(ServerMap(Snap(w, s), Rules(sorted)));
  }

  /** Until it is quiescent, the pipeline can take an internal step. */
  lemma Progress(w: World, s: State) returns (step: Step)
    requires Inv(w, s) && !Quiescent(s)
    ensures Internal(step) && Enabled(w, s, step)
  {
    if s.pushing {
      step := IngressPush("");
    } else if s.notes != [] {
      Store.LegalRunDeliverable(s.view, s.notes);
      step := IngressHandle;
    } else if s.endpointNotes != [] {
      step := EndpointsHandle("");
    } else if s.hand.Ref? {
      step := Enqueue;
    } else if s.ring != [] {
      step := Pop;
    } else if s.q.worker.Busy? {
      var listing, c := BuildExists(w, s);
      step := Finish(listing, c);
    } else if s.q.wq.queue != [] {
      step := Take;
    } else {
      var e :| e in s.q.delayed;
      step := Release(e);
    }
  }

  /** No internal step can be taken. */
  ghost predicate Stuck(w: World, s: State) {
    forall step :: Internal(step) ==> !Enabled(w, s, step)
  }

  lemma StuckIsSynced(w: World, s: State)
    requires Inv(w, s)
    ensures Stuck(w, s) ==> Quiescent(s) && Synced(w, s)
  {
    if Quiescent(s) {
      QuiescentSynced(w, s);
    } else {
      var step := Progress(w, s);
    }
  }

  lemma {:induction false} RunIsBounded(w: World, s: State, steps: seq<Step>)
    requires Inv(w, s) && IsRun(w, s, steps) && AllInternal(steps)
    ensures |steps| + Measure(After(w, s, steps)) <= Measure(s)
    decreases |steps|
  {
    if steps != [] {
      var rest := steps[1..];
      assert AllInternal(rest);
      StepKeepsInv(w, s, steps[0]);
      RunIsBounded(w, Next(w, s, steps[0]), rest);
      MeasureFalls(w, s, steps[0]);
    }
  }

  /** Left alone, the pipeline stops within its measure; and where it can go no further,
      it is quiescent and the table is right. */
  lemma Drains(w: World, s: State, steps: seq<Step>)
    requires Inv(w, s) && IsRun(w, s, steps) && AllInternal(steps)
    ensures |steps| + Measure(After(w, s, steps)) <= Measure(s)
    ensures Stuck(w, After(w, s, steps)) ==> Quiescent(After(w, s, steps)) && Synced(w, After(w, s, steps))
  {
    RunIsBounded(w, s, steps);
    RunKeepsInv(w, s, steps);
    StuckIsSynced(w, After(w, s, steps));
  }
}
