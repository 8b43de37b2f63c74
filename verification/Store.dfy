/** internal/ingress/controller/store/store.go and annotations/class/main.go: the
    derived ingress store and the events that keep it up to date. */
module Store {
  import opened Go
  import opened Types
  import opened Sorting

  const INGRESS_KEY := "kubernetes.io/ingress.class"
  const DEFAULT_CLASS := "wls"

  /** The ingress belongs to a class setting: to the class that its annotation names, or, when it
      names none, to the setting "wls" and to the empty one. */
  ghost predicate OfClass(ing: Ingress, setting: string) {
    if "kubernetes.io/ingress.class" !in ing.annotations then setting in {"wls", ""}
    else
      var c := ing.annotations["kubernetes.io/ingress.class"];
      if c == "" then setting in {"wls", ""} else setting == c
  }

  /** class.IsValid under the configured ingress class. */
  predicate IsValid(ing: Ingress, ingressClass: string): (valid: bool)
    ensures valid <==> OfClass(ing, ingressClass)
  {
    var annotation := if INGRESS_KEY in ing.annotations then ing.annotations[INGRESS_KEY] else "";
    if annotation == "" && ingressClass == DEFAULT_CLASS then true else annotation == ingressClass
  }

  /** No ingress belongs to two class settings, but for one that names no class: both the
      default setting and the empty one accept it. */
  lemma ClassesAreDisjoint(ing: Ingress, class1: string, class2: string)
    requires class1 != class2
    ensures IsValid(ing, class1) && IsValid(ing, class2) <==>
              && (INGRESS_KEY !in ing.annotations || ing.annotations[INGRESS_KEY] == "")
              && {class1, class2} == {"", DEFAULT_CLASS}
  {
    if {class1, class2} == {"", DEFAULT_CLASS} {
      assert DEFAULT_CLASS in {class1, class2};
    }
  }

  // ---- The copy kept in the derived store ------------------------------------

  function NormalizedPath(p: Path): Path { if p.path == "" then p.(path := "/") else p }

  function NormalizedPaths(ps: seq<Path>): (r: seq<Path>)
    ensures |r| == |ps| && forall i :: 0 <= i < |ps| ==> r[i] == NormalizedPath(ps[i])
  {
    seq(|ps|, i requires 0 <= i < |ps| => NormalizedPath(ps[i]))
  }

  function NormalizedRule(r: Rule): Rule {
    if r.http.Nil? then r else Rule(r.host, Ref(NormalizedPaths(r.http.v)))
  }

  /** The ingress with every empty path rewritten to "/". */
  function Normalized(ing: Ingress): Ingress {
    ing.(rules := seq(|ing.rules|, i requires 0 <= i < |ing.rules| => NormalizedRule(ing.rules[i])))
  }

  /** The copy has no empty path, differs from the original in nothing else, and is not
      changed by copying it again. */
  lemma NormalizedChangesOnlyEmptyPaths(ing: Ingress, i: nat)
    requires i < |ing.rules|
    ensures var n := Normalized(ing);
            && n.(rules := ing.rules) == ing && |n.rules| == |ing.rules| && Normalized(n) == n
            && n.rules[i].host == ing.rules[i].host && n.rules[i].http.Ref? == ing.rules[i].http.Ref?
            && (n.rules[i].http.Ref? ==>
                  var ps, qs := ing.rules[i].http.v, n.rules[i].http.v;
                  |qs| == |ps| && forall j :: 0 <= j < |ps| ==>
                    qs[j].path == (if ps[j].path == "" then "/" else ps[j].path) && qs[j].(path := ps[j].path) == ps[j])
  {
    var n := Normalized(ing);
    forall k | 0 <= k < |n.rules| ensures NormalizedRule(n.rules[k]) == n.rules[k] {
      if n.rules[k].http.Ref? {
        assert NormalizedPaths(n.rules[k].http.v) == n.rules[k].http.v;
      }
    }
    assert Normalized(n).rules == n.rules;
  }

  /** A rule as it lies in memory, with its paths in a slice that others may share. */
  datatype RuleMemory = RuleMemory(host: string, paths: array?<Path>)

  function RuleValue(r: RuleMemory): Rule
    reads r.paths
  {
    Rule(r.host, if r.paths == null then Nil else Ref(r.paths[..]))
  }

  function PathsOf(rules: seq<RuleMemory>): set<object> {
    set i | 0 <= i < |rules| && rules[i].paths != null :: rules[i].paths
  }

  function RuleValues(rules: seq<RuleMemory>): (r: seq<Rule>)
    reads PathsOf(rules)
    ensures |r| == |rules| && forall i :: 0 <= i < |rules| ==> r[i] == RuleValue(rules[i])
  {
    if rules == [] then []
    else
      assert rules[..|rules| - 1] + [rules[|rules| - 1]] == rules;
      RuleValues(rules[..|rules| - 1]) + [RuleValue(rules[|rules| - 1])]
  }

  /** syncIngress: deep-copies the rules, then rewrites the copy in place. The cached
      original is only read. */
  method NormalizedCopy(rules: seq<RuleMemory>) returns (copy: seq<RuleMemory>)
    ensures |copy| == |rules|
    ensures forall i :: 0 <= i < |rules| ==> RuleValue(copy[i]) == NormalizedRule(old(RuleValue(rules[i])))
    ensures forall i :: 0 <= i < |rules| ==> RuleValue(rules[i]) == old(RuleValue(rules[i]))
    ensures forall i :: 0 <= i < |copy| && copy[i].paths != null ==> fresh(copy[i].paths)
  {
    copy := [];
    for i := 0 to |rules|
      invariant |copy| == i
      invariant forall k :: 0 <= k < i ==> RuleValue(copy[k]) == NormalizedRule(old(RuleValue(rules[k])))
      invariant forall k :: 0 <= k < i && copy[k].paths != null ==> fresh(copy[k].paths)
    {
      var rule := rules[i];
      var paths: array?<Path> := null;
      if rule.paths != null {
        paths := CopyPaths(rule.paths);
        RewriteEmpty(paths);
      }
      copy := copy + [RuleMemory(rule.host, paths)];
    }
  }

  method CopyPaths(paths: array<Path>) returns (copy: array<Path>)
    ensures fresh(copy) && copy[..] == paths[..]
  {
    copy := new Path[paths.Length](i requires 0 <= i < paths.Length reads paths => paths[i]);
  }

  method RewriteEmpty(paths: array<Path>)
    modifies paths
    ensures paths[..] == NormalizedPaths(old(paths[..]))
  {
    for i := 0 to paths.Length
      invariant forall k :: 0 <= k < i ==> paths[k] == NormalizedPath(old(paths[k]))
      invariant forall k :: i <= k < paths.Length ==> paths[k] == old(paths[k])
    {
      if paths[i].path == "" {
        paths[i] := paths[i].(path := "/");
      }
    }
  }

  // ---- Informer objects and notifications ------------------------------------

  /** What an informer hands to its handlers. */
  datatype Object =
    | Networking(ing: Ingress)
    | Extensions(ing: Ingress)
    | Tombstone(key: string, last: Object)
    | Foreign

  /** toIngress, for objects whose conversion succeeds. */
  function ToIngress(obj: Object): Ptr<Ingress> {
    match obj
    case Networking(ing) => Ref(ing)
    case Extensions(ing) => Ref(ing)
    case _ => Nil
  }

  predicate IsIngress(obj: Object) { obj.Networking? || obj.Extensions? }

  function IngressKey(ing: Ingress): string { MetaNamespaceKey(ing.namespace, ing.name) }

  datatype Notification = Added(obj: Object) | Updated(prev: Object, cur: Object) | Deleted(obj: Object)

  /** The arguments the handlers may dereference. */
  predicate Deliverable(note: Notification) {
    match note
    case Added(obj) => IsIngress(obj)
    case Updated(prev, cur) => IsIngress(prev) && IsIngress(cur)
    case Deleted(_) => true
  }

  type Derived = map<string, Ingress>

  /** The ingress a delete event is about: tombstones are opened only when they hold
      a networking-API object. */
  function DeletedIngress(obj: Object): Ptr<Ingress> {
    if IsIngress(obj) then Ref(obj.ing)
    else if obj.Tombstone? && obj.last.Networking? then Ref(obj.last.ing)
    else Nil
  }

  /** ingDeleteHandler: the new derived store, and whether an event is pushed. */
  function HandleDelete(ingressClass: string, derived: Derived, obj: Object): (Derived, bool) {
    var ing := DeletedIngress(obj);
    if ing.Nil? || !IsValid(ing.v, ingressClass) then (derived, false)
    else (derived - {IngressKey(ing.v)}, true)
  }

  /** What a notification does to the derived store, and whether an event is pushed. */
  function Handle(ingressClass: string, derived: Derived, note: Notification): (Derived, bool)
    requires Deliverable(note)
  {
    match note
    case Added(obj) =>
      if !IsValid(obj.ing, ingressClass) then (derived, false)
      else (derived[IngressKey(obj.ing) := Normalized(obj.ing)], true)
    case Updated(prev, cur) =>
      var validOld, validCur := IsValid(prev.ing, ingressClass), IsValid(cur.ing, ingressClass);
      if validOld && !validCur then HandleDelete(ingressClass, derived, prev)
      else if !validCur || (validOld && prev == cur) then (derived, false)
      else (derived[IngressKey(cur.ing) := Normalized(cur.ing)], true)
    case Deleted(obj) => HandleDelete(ingressClass, derived, obj)
  }

  /** channels.RingChannel: a full buffer drops its oldest event. */
  const RING_SIZE: nat := 1024

  function Push<E>(ring: seq<E>, e: E): (r: seq<E>)
    ensures |ring| < 1024 ==> r == ring + [e]
    ensures |ring| >= 1024 ==> |r| == |ring| && r[|r| - 1] == e && forall i :: 1 <= i < |r| ==> r[i - 1] == ring[i]
  {
    if |ring| < RING_SIZE then ring + [e] else ring[1..] + [e]
  }

  /** The store object: the ingress event handlers update the derived store, then
      push to the update channel. `rules` is where the rules of a cached ingress lie;
      the handlers copy them and never write to them. */
  class K8sStore {
    const ingressClass: string
    var derived: Derived
    var updateCh: seq<Object>

    constructor (ingressClass: string)
      ensures this.ingressClass == ingressClass && derived == map[] && updateCh == []
    {
      this.ingressClass := ingressClass;
      derived := map[];
      updateCh := [];
    }

    method OnAdd(obj: Object, rules: seq<RuleMemory>)
      requires Deliverable(Added(obj)) && RuleValues(rules) == obj.ing.rules
      modifies this
      ensures derived == if OfClass(obj.ing, ingressClass) then old(derived)[IngressKey(obj.ing) := Normalized(obj.ing)]
                         else old(derived)
      ensures derived == Handle(ingressClass, old(derived), Added(obj)).0
      ensures updateCh == if OfClass(obj.ing, ingressClass) then Push(old(updateCh), obj) else old(updateCh)
      ensures RuleValues(rules) == old(RuleValues(rules))
    {
      if !IsValid(obj.ing, ingressClass) {
        return;
      }
      SyncIngress(obj.ing, rules);
      updateCh := Push(updateCh, obj);
    }

    method OnUpdate(prev: Object, cur: Object, rules: seq<RuleMemory>)
      requires Deliverable(Updated(prev, cur)) && RuleValues(rules) == cur.ing.rules
      modifies this
      ensures derived == Handle(ingressClass, old(derived), Updated(prev, cur)).0
      ensures OfClass(cur.ing, ingressClass) && (prev != cur || !OfClass(prev.ing, ingressClass)) ==>
                && derived == old(derived)[IngressKey(cur.ing) := Normalized(cur.ing)]
                && updateCh == Push(old(updateCh), cur)
      ensures OfClass(prev.ing, ingressClass) && !OfClass(cur.ing, ingressClass) ==>
                derived == old(derived) - {IngressKey(prev.ing)} && updateCh == Push(old(updateCh), prev)
      ensures (if OfClass(cur.ing, ingressClass) then prev == cur && OfClass(prev.ing, ingressClass)
               else !OfClass(prev.ing, ingressClass)) ==>
                derived == old(derived) && updateCh == old(updateCh)
      ensures RuleValues(rules) == old(RuleValues(rules))
    {
      var validOld := IsValid(prev.ing, ingressClass);
      var validCur := IsValid(cur.ing, ingressClass);
      if !validOld && validCur {
      } else if validOld && !validCur {
        OnDelete(prev);
        return;
      } else if validCur && prev != cur {
      } else {
        return;
      }
      SyncIngress(cur.ing, rules);
      updateCh := Push(updateCh, cur);
    }

    method OnDelete(obj: Object)
      modifies this
      ensures derived == HandleDelete(ingressClass, old(derived), obj).0
      ensures Recognized(ingressClass, obj) ==>
                && derived == old(derived) - {IngressKey(if obj.Tombstone? then obj.last.ing else obj.ing)}
                && updateCh == Push(old(updateCh), obj)
      ensures !Recognized(ingressClass, obj) ==> derived == old(derived) && updateCh == old(updateCh)
    {
      var ing := ToIngress(obj);
      if ing.Nil? {
        if !obj.Tombstone? {
          return;
        }
        if !obj.last.Networking? {
          return;
        }
        ing := Ref(obj.last.ing);
      }
      if !IsValid(ing.v, ingressClass) {
        return;
      }
      derived := derived - {IngressKey(ing.v)};
      updateCh := Push(updateCh, obj);
    }

    method SyncIngress(ing: Ingress, rules: seq<RuleMemory>)
      requires RuleValues(rules) == ing.rules
      modifies this`derived
      ensures derived == old(derived)[IngressKey(ing) := Normalized(ing)]
      ensures RuleValues(rules) == old(RuleValues(rules))
    {
      var copy := NormalizedCopy(rules);
      assert RuleValues(copy) == Normalized(ing).rules;
      derived := derived[IngressKey(ing) := ing.(rules := RuleValues(copy))];
    }
  }

  // ---- The informer cache behind the notifications ---------------------------

  type Cache = map<string, Object>

  ghost predicate WellKeyed(cache: Cache) {
    forall k :: k in cache ==> IsIngress(cache[k]) && IngressKey(cache[k].ing) == k
  }

  /** A notification the informer can send for this cache. An add is of a new key, and an
      update brings the cached object along. A delete names a key of the cache; the object it
      carries may be any state of the ingress, and a tombstone's may be something else. */
  ghost predicate Legal(cache: Cache, note: Notification) {
    match note
    case Added(obj) => IsIngress(obj) && IngressKey(obj.ing) !in cache
    case Updated(prev, cur) =>
      IsIngress(prev) && IsIngress(cur) && IngressKey(cur.ing) in cache && cache[IngressKey(cur.ing)] == prev
    case Deleted(obj) =>
      if obj.Tombstone? then obj.key in cache && (IsIngress(obj.last) ==> IngressKey(obj.last.ing) == obj.key)
      else IsIngress(obj) && IngressKey(obj.ing) in cache
  }

  /** The cache after the change a notification reports. */
  ghost function Replay(cache: Cache, note: Notification): Cache
    requires Legal(cache, note)
  {
    match note
    case Added(obj) => cache[IngressKey(obj.ing) := obj]
    case Updated(_, cur) => cache[IngressKey(cur.ing) := cur]
    case Deleted(obj) => cache - {if obj.Tombstone? then obj.key else IngressKey(obj.ing)}
  }

  /** The derived store holds exactly the class-valid ingresses, normalized. */
  ghost predicate Agrees(ingressClass: string, cache: Cache, derived: Derived)
    requires WellKeyed(cache)
  {
    && (forall k :: k in derived <==> k in cache && OfClass(cache[k].ing, ingressClass))
    && (forall k :: k in derived ==> derived[k] == Normalized(cache[k].ing))
  }

  /** At `k`, the derived store holds the class-valid ingress of the cache, or else what
      `left` holds. */
  ghost predicate AgreesAt(ingressClass: string, cache: Cache, derived: Derived, left: Derived, k: string)
    requires WellKeyed(cache)
  {
    if k in cache && OfClass(cache[k].ing, ingressClass)
    then k !in left && k in derived && derived[k] == Normalized(cache[k].ing)
    else (k in derived <==> k in left) && (k in derived ==> derived[k] == left[k])
  }

  /** Besides the class-valid ingresses, the derived store holds exactly `left`. */
  ghost predicate AgreesBut(ingressClass: string, cache: Cache, derived: Derived, left: Derived)
    requires WellKeyed(cache)
  {
    forall k :: k in cache || k in derived || k in left ==> AgreesAt(ingressClass, cache, derived, left, k)
  }

  lemma AgreesIffNothingLeft(ingressClass: string, cache: Cache, derived: Derived, left: Derived)
    requires WellKeyed(cache) && AgreesBut(ingressClass, cache, derived, left)
    ensures Agrees(ingressClass, cache, derived) <==> left == map[]
  {
    if k :| k in left {
      assert AgreesAt(ingressClass, cache, derived, left, k);
    } else {
      forall k ensures k in derived <==> k in cache && OfClass(cache[k].ing, ingressClass)
               ensures k in derived ==> derived[k] == Normalized(cache[k].ing)
      {
        assert AgreesAt(ingressClass, cache, derived, left, k);
      }
    }
  }

  /** An ingress of the class, or a tombstone that holds a networking-API one. */
  ghost predicate Recognized(ingressClass: string, obj: Object) {
    match obj
    case Networking(ing) => OfClass(ing, ingressClass)
    case Extensions(ing) => OfClass(ing, ingressClass)
    case Tombstone(_, last) => last.Networking? && OfClass(last.ing, ingressClass)
    case Foreign => false
  }

  /** A delete of an ingress of this class that carries no ingress of this class which the
      handler recognises. */
  ghost predicate LostDelete(ingressClass: string, cache: Cache, note: Notification)
    requires WellKeyed(cache) && Legal(cache, note)
  {
    note.Deleted? && OfClass(cache[KeyOf(note)].ing, ingressClass) && !Recognized(ingressClass, note.obj)
  }

  /** The key a notification is about. */
  ghost function KeyOf(note: Notification): string
    requires Deliverable(note)
  {
    match note
    case Added(obj) => IngressKey(obj.ing)
    case Updated(_, cur) => IngressKey(cur.ing)
    case Deleted(obj) =>
      if obj.Tombstone? then obj.key else if IsIngress(obj) then IngressKey(obj.ing) else ""
  }

  /** What deletes that were not recognised leave behind: a lost delete leaves its ingress,
      until the handlers next write or delete that key. */
  ghost function Remaining(ingressClass: string, cache: Cache, left: Derived, note: Notification): Derived
    requires WellKeyed(cache) && Legal(cache, note)
  {
    if LostDelete(ingressClass, cache, note) then left[KeyOf(note) := Normalized(cache[KeyOf(note)].ing)]
    else if Handle(ingressClass, left, note).1 then left - {KeyOf(note)}
    else left
  }

  lemma LegalFacts(cache: Cache, note: Notification)
    requires WellKeyed(cache) && Legal(cache, note)
    ensures Deliverable(note) && WellKeyed(Replay(cache, note))
    ensures note.Deleted? ==> KeyOf(note) in cache && Replay(cache, note) == cache - {KeyOf(note)}
  {
  }

  /** A notification changes the cache, the derived store and the leftovers at its own key only. */
  lemma HandleElsewhere(ingressClass: string, cache: Cache, derived: Derived, left: Derived, note: Notification,
                        k: string)
    requires WellKeyed(cache) && Legal(cache, note) && Deliverable(note) && k != KeyOf(note)
    requires WellKeyed(Replay(cache, note)) && AgreesAt(ingressClass, cache, derived, left, k)
    ensures AgreesAt(ingressClass, Replay(cache, note), Handle(ingressClass, derived, note).0,
                     Remaining(ingressClass, cache, left, note), k)
  {
  }

  lemma HandleAt(ingressClass: string, cache: Cache, derived: Derived, left: Derived, note: Notification)
    requires WellKeyed(cache) && Legal(cache, note) && Deliverable(note) && WellKeyed(Replay(cache, note))
    requires AgreesAt(ingressClass, cache, derived, left, KeyOf(note))
    ensures AgreesAt(ingressClass, Replay(cache, note), Handle(ingressClass, derived, note).0,
                     Remaining(ingressClass, cache, left, note), KeyOf(note))
  {
    match note
    case Added(obj) =>
    case Updated(prev, cur) => assert IngressKey(prev.ing) == IngressKey(cur.ing);
    case Deleted(obj) =>
  }

  /** Every notification: the derived store stays the class-valid part of the cache and what
      lost deletes have left. */
  lemma HandleIsExact(ingressClass: string, cache: Cache, derived: Derived, left: Derived, note: Notification)
    requires WellKeyed(cache) && AgreesBut(ingressClass, cache, derived, left) && Legal(cache, note)
    ensures Deliverable(note) && WellKeyed(Replay(cache, note))
    ensures AgreesBut(ingressClass, Replay(cache, note), Handle(ingressClass, derived, note).0,
                      Remaining(ingressClass, cache, left, note))
  {
    LegalFacts(cache, note);
    forall k ensures AgreesAt(ingressClass, Replay(cache, note), Handle(ingressClass, derived, note).0,
                              Remaining(ingressClass, cache, left, note), k)
    {
      assert AgreesAt(ingressClass, cache, derived, left, k);
      if k == KeyOf(note) {
        HandleAt(ingressClass, cache, derived, left, note);
      } else {
        HandleElsewhere(ingressClass, cache, derived, left, note, k);
      }
    }
  }

  /** A notification keeps the agreement exactly when it is not a lost delete. */
  lemma HandleKeepsAgreementIff(ingressClass: string, cache: Cache, derived: Derived, note: Notification)
    requires WellKeyed(cache) && Agrees(ingressClass, cache, derived) && Legal(cache, note)
    ensures Deliverable(note) && WellKeyed(Replay(cache, note))
    ensures Agrees(ingressClass, Replay(cache, note), Handle(ingressClass, derived, note).0) <==>
              !LostDelete(ingressClass, cache, note)
  {
    var left: Derived := map[];
    HandleIsExact(ingressClass, cache, derived, left, note);
    AgreesIffNothingLeft(ingressClass, Replay(cache, note), Handle(ingressClass, derived, note).0,
                         Remaining(ingressClass, cache, left, note));
    if LostDelete(ingressClass, cache, note) {
      assert KeyOf(note) in Remaining(ingressClass, cache, left, note);
    }
  }

  /** What the handlers see of an object: the object, if it is an ingress of the class. */
  ghost function Seen(ingressClass: string, obj: Object): Ptr<Object> {
    if Recognized(ingressClass, obj) then Ref(obj) else Nil
  }

  /** An event is pushed exactly when what the handlers see changes: an ingress of the class comes,
      goes, or is replaced by a different object. */
  lemma PushesIffSeenChanges(ingressClass: string, derived: Derived, note: Notification)
    requires Deliverable(note)
    ensures Handle(ingressClass, derived, note).1 <==>
              match note
              case Added(obj) => Seen(ingressClass, obj) != Nil
              case Updated(prev, cur) => Seen(ingressClass, prev) != Seen(ingressClass, cur)
              case Deleted(obj) => Seen(ingressClass, obj) != Nil
  {
  }

  /** When no event is pushed, nothing in the derived store has changed. */
  lemma SilentMeansUnchanged(ingressClass: string, derived: Derived, note: Notification)
    requires Deliverable(note) && !Handle(ingressClass, derived, note).1
    ensures Handle(ingressClass, derived, note).0 == derived
  {
  }

  ghost predicate LegalRun(cache: Cache, notes: seq<Notification>)
    decreases |notes|
  {
    notes == [] || (Legal(cache, notes[0]) && LegalRun(Replay(cache, notes[0]), notes[1..]))
  }

  ghost function ReplayAll(cache: Cache, notes: seq<Notification>): Cache
    requires LegalRun(cache, notes)
    decreases |notes|
  {
    if notes == [] then cache else ReplayAll(Replay(cache, notes[0]), notes[1..])
  }

  ghost predicate AllDeliverable(notes: seq<Notification>) {
    forall i :: 0 <= i < |notes| ==> Deliverable(notes[i])
  }

  ghost function HandleAll(ingressClass: string, derived: Derived, notes: seq<Notification>): Derived
    requires AllDeliverable(notes)
    decreases |notes|
  {
    if notes == [] then derived else HandleAll(ingressClass, Handle(ingressClass, derived, notes[0]).0, notes[1..])
  }

  /** What is left after all notifications. */
  ghost function RemainingAll(ingressClass: string, cache: Cache, left: Derived, notes: seq<Notification>): Derived
    requires WellKeyed(cache) && LegalRun(cache, notes)
    decreases |notes|
  {
    if notes == [] then left
    else
      LegalFacts(cache, notes[0]);
      RemainingAll(ingressClass, Replay(cache, notes[0]), Remaining(ingressClass, cache, left, notes[0]), notes[1..])
  }

  /** None of the notifications is a lost delete when it is sent. */
  ghost predicate NoneLost(ingressClass: string, cache: Cache, notes: seq<Notification>)
    requires WellKeyed(cache) && LegalRun(cache, notes)
    decreases |notes|
  {
    notes == [] || (
      LegalFacts(cache, notes[0]);
      !LostDelete(ingressClass, cache, notes[0]) && NoneLost(ingressClass, Replay(cache, notes[0]), notes[1..]))
  }

  lemma {:induction false} LegalRunDeliverable(cache: Cache, notes: seq<Notification>)
    requires WellKeyed(cache) && LegalRun(cache, notes)
    ensures AllDeliverable(notes)
    decreases |notes|
  {
    if notes != [] {
      LegalFacts(cache, notes[0]);
      LegalRunDeliverable(Replay(cache, notes[0]), notes[1..]);
      assert forall i :: 1 <= i < |notes| ==> notes[i] == notes[1..][i - 1];
    }
  }

  /** After any sequence of adds, updates and deletes, the derived store is the class-valid
      part of the informer cache and what lost deletes have left. */
  lemma {:induction false} DerivedIndexIsExact(ingressClass: string, cache: Cache, derived: Derived, left: Derived,
                                               notes: seq<Notification>)
    requires WellKeyed(cache) && AgreesBut(ingressClass, cache, derived, left) && LegalRun(cache, notes)
    ensures AllDeliverable(notes) && WellKeyed(ReplayAll(cache, notes))
    ensures AgreesBut(ingressClass, ReplayAll(cache, notes), HandleAll(ingressClass, derived, notes),
                      RemainingAll(ingressClass, cache, left, notes))
    decreases |notes|
  {
    LegalRunDeliverable(cache, notes);
    if notes != [] {
      HandleIsExact(ingressClass, cache, derived, left, notes[0]);
      DerivedIndexIsExact(ingressClass, Replay(cache, notes[0]), Handle(ingressClass, derived, notes[0]).0,
                          Remaining(ingressClass, cache, left, notes[0]), notes[1..]);
    }
  }

  lemma {:induction false} NothingLost(ingressClass: string, cache: Cache, notes: seq<Notification>)
    requires WellKeyed(cache) && LegalRun(cache, notes) && NoneLost(ingressClass, cache, notes)
    ensures RemainingAll(ingressClass, cache, map[], notes) == map[]
    decreases |notes|
  {
    if notes != [] {
      var left: Derived := map[];
      LegalFacts(cache, notes[0]);
      assert left - {KeyOf(notes[0])} == left;
      NothingLost(ingressClass, Replay(cache, notes[0]), notes[1..]);
    }
  }

  /** From the empty store, after any sequence of notifications: the derived store agrees with
      the cache exactly when no lost delete is left, and so when none was among them. */
  lemma DerivedIndexAgreement(ingressClass: string, notes: seq<Notification>)
    requires LegalRun(map[], notes)
    ensures AllDeliverable(notes) && WellKeyed(ReplayAll(map[], notes))
    ensures Agrees(ingressClass, ReplayAll(map[], notes), HandleAll(ingressClass, map[], notes)) <==>
              RemainingAll(ingressClass, map[], map[], notes) == map[]
    ensures NoneLost(ingressClass, map[], notes) ==>
              Agrees(ingressClass, ReplayAll(map[], notes), HandleAll(ingressClass, map[], notes))
  {
    DerivedIndexIsExact(ingressClass, map[], map[], map[], notes);
    AgreesIffNothingLeft(ingressClass, ReplayAll(map[], notes), HandleAll(ingressClass, map[], notes),
                         RemainingAll(ingressClass, map[], map[], notes));
    if NoneLost(ingressClass, map[], notes) {
      NothingLost(ingressClass, map[], notes);
    }
  }

  /** Three deletes that are lost: the tombstone holds an extensions-API ingress, an older
      state in another class, or nothing. Each leaves the ingress in the derived store. */
  lemma DeletesAreLost()
    ensures var ing := Ingress("ns", "shop", 0, map[], []);
            var stale := ing.(annotations := map[INGRESS_KEY := "other"]);
            var cache: Cache := map["ns/shop" := Networking(ing)];
            var derived: Derived := map["ns/shop" := ing];
            && WellKeyed(cache) && Agrees(DEFAULT_CLASS, cache, derived)
            && forall last :: last in {Extensions(ing), Networking(stale), Foreign} ==>
                 var note := Deleted(Tombstone("ns/shop", last));
                 && Legal(cache, note) && LostDelete(DEFAULT_CLASS, cache, note)
                 && Handle(DEFAULT_CLASS, derived, note) == (derived, false) && Replay(cache, note) == map[]
  {
    var ing := Ingress("ns", "shop", 0, map[], []);
    var stale := ing.(annotations := map[INGRESS_KEY := "other"]);
    assert IngressKey(ing) == "ns/shop" == IngressKey(stale);
    assert "other" != DEFAULT_CLASS;
    assert Normalized(ing) == ing;
  }

  // ---- Listing ---------------------------------------------------------------

  predicate Earlier(a: Ingress, b: Ingress) { a.created < b.created }

  ghost predicate ListsOnly(listing: seq<Ingress>, derived: Derived) {
    forall i :: 0 <= i < |listing| ==>
      IngressKey(listing[i]) in derived && derived[IngressKey(listing[i])] == listing[i]
  }

  ghost predicate ListsOnce(listing: seq<Ingress>) {
    forall i, j :: 0 <= i < j < |listing| ==> IngressKey(listing[i]) != IngressKey(listing[j])
  }

  ghost predicate ListsKey(listing: seq<Ingress>, k: string) {
    exists i :: 0 <= i < |listing| && IngressKey(listing[i]) == k
  }

  /** `listing` names every ingress of the derived store once, in some order. */
  ghost predicate Lists(listing: seq<Ingress>, derived: Derived) {
    ListsOnly(listing, derived) && ListsOnce(listing) && forall k :: k in derived ==> ListsKey(listing, k)
  }

  lemma OneMoreListed(listing: seq<Ingress>, rest: Derived, k: string, ing: Ingress)
    requires Lists(listing, rest) && k !in rest && IngressKey(ing) == k
    ensures Lists(listing + [ing], rest[k := ing])
  {
    var longer, more := listing + [ing], rest[k := ing];
    OnlyMore(listing, longer, rest, ing);
    OnceMore(listing, rest, ing);
    forall j | j in more ensures ListsKey(longer, j) {
      if j == k {
        assert longer[|listing|] == ing;
      } else {
        ListedStays(listing, [], [ing], j);
        assert [] + listing + [ing] == longer;
      }
    }
  }

  /** Nothing but the one ingress is new in the longer listing. */
  lemma OnlyMore(listing: seq<Ingress>, longer: seq<Ingress>, rest: Derived, ing: Ingress)
    requires ListsOnly(listing, rest) && IngressKey(ing) !in rest
    requires forall i :: 0 <= i < |longer| ==> longer[i] == ing || longer[i] in listing
    ensures ListsOnly(longer, rest[IngressKey(ing) := ing])
  {
    var more := rest[IngressKey(ing) := ing];
    forall i | 0 <= i < |longer| ensures IngressKey(longer[i]) in more && more[IngressKey(longer[i])] == longer[i] {
      if longer[i] != ing {
        var j :| 0 <= j < |listing| && listing[j] == longer[i];
      }
    }
  }

  lemma OnceMore(listing: seq<Ingress>, rest: Derived, ing: Ingress)
    requires ListsOnly(listing, rest) && ListsOnce(listing) && IngressKey(ing) !in rest
    ensures ListsOnce(listing + [ing])
  {
    var longer := listing + [ing];
    forall i, j | 0 <= i < j < |longer| ensures IngressKey(longer[i]) != IngressKey(longer[j]) {
      assert longer[i] == listing[i];
      assert j < |listing| ==> longer[j] == listing[j];
    }
  }

  lemma ListedStays(listing: seq<Ingress>, front: seq<Ingress>, back: seq<Ingress>, k: string)
    requires ListsKey(listing, k)
    ensures ListsKey(front + listing + back, k)
  {
    var i :| 0 <= i < |listing| && IngressKey(listing[i]) == k;
    assert (front + listing + back)[|front| + i] == listing[i];
  }

  lemma {:induction false} ListingExists(derived: Derived) returns (listing: seq<Ingress>)
    requires forall k :: k in derived ==> IngressKey(derived[k]) == k
    ensures Lists(listing, derived)
    decreases derived.Keys
  {
    if derived == map[] {
      listing := [];
    } else {
      var k :| k in derived;
      var rest := derived - {k};
      listing := ListingExists(rest);
      OneMoreListed(listing, rest, k, derived[k]);
      assert rest[k := derived[k]] == derived;
      listing := listing + [derived[k]];
    }
  }

  /** ListIngresses without a filter, for the order in which the cache lists. */
  method ListIngresses(listing: seq<Ingress>) returns (ingresses: seq<Ingress>)
    ensures ingresses == InOrder(listing)
    ensures StablySorted(ingresses, listing, Earlier) && multiset(ingresses) == multiset(listing)
  {
    ingresses := [];
    for i := 0 to |listing|
      invariant ingresses == listing[..i]
    {
      ingresses := ingresses + [listing[i]];
    }
    assert ingresses == listing;
    InOrderSorts(ingresses);
    EarlierIsWeakOrder();
    SliceStableIsTheStableOrder(listing, InOrder(listing), Earlier);
    ingresses := SliceStable(ingresses, Earlier);
  }

  /** The ingresses of a listing in the order in which their rules are read. */
  function InOrder(listing: seq<Ingress>): seq<Ingress> { SliceStable(listing, Earlier) }

  lemma EarlierIsWeakOrder()
    ensures StrictWeakOrder(Earlier)
  {
  }

  lemma InOrderSorts(listing: seq<Ingress>)
    ensures Sorted(InOrder(listing), Earlier) && multiset(InOrder(listing)) == multiset(listing)
  {
    EarlierIsWeakOrder();
    SliceStableSorts(listing, Earlier);
  }

  ghost predicate DistinctTimes(derived: Derived) {
    forall j, k :: j in derived && k in derived && j != k ==> derived[j].created != derived[k].created
  }

  /** Two listings of one store hold the same ingresses. */
  lemma ListingsArePermutations(a: seq<Ingress>, b: seq<Ingress>, derived: Derived)
    requires Lists(a, derived) && Lists(b, derived)
    ensures multiset(a) == multiset(b)
  {
    forall x ensures multiset(a)[x] == multiset(b)[x] {
      DistinctCountsOne(a, x);
      DistinctCountsOne(b, x);
      ListedIff(a, derived, x);
      ListedIff(b, derived, x);
    }
  }

  lemma ListedIff(a: seq<Ingress>, derived: Derived, x: Ingress)
    requires Lists(a, derived)
    ensures x in a <==> IngressKey(x) in derived && derived[IngressKey(x)] == x
  {
    if IngressKey(x) in derived && derived[IngressKey(x)] == x {
      var i :| 0 <= i < |a| && IngressKey(a[i]) == IngressKey(x);
    }
  }

  /** With distinct creation times, the listing order of the cache does not show. */
  lemma ListOrderDoesNotShow(a: seq<Ingress>, b: seq<Ingress>, derived: Derived)
    requires Lists(a, derived) && Lists(b, derived) && DistinctTimes(derived)
    ensures InOrder(a) == InOrder(b)
  {
    var s, t := InOrder(a), InOrder(b);
    InOrderSorts(a);
    InOrderSorts(b);
    ListingsArePermutations(a, b, derived);
    forall i, j | 0 <= i < |s| && 0 <= j < |s| && s[i] != s[j] ensures !Tied(s[i], s[j], Earlier) {
      SameElements(s, a, s[i]);
      SameElements(s, a, s[j]);
      ListedIff(a, derived, s[i]);
      ListedIff(a, derived, s[j]);
    }
    SortedOrderIsUnique(s, t, Earlier);
  }

  ghost predicate ListOrderHidden(derived: Derived) {
    forall a, b :: Lists(a, derived) && Lists(b, derived) ==> InOrder(a) == InOrder(b)
  }

  ghost predicate Before(s: seq<Ingress>, x: Ingress, y: Ingress) {
    exists i, j :: 0 <= i < j < |s| && s[i] == x && s[j] == y
  }

  /** An element is inserted behind every element it ties with. */
  lemma {:induction false} InsertedBehind(x: Ingress, y: Ingress, s: seq<Ingress>)
    requires x in s && !Earlier(y, x)
    ensures Before(Insert(y, s, Earlier), x, y)
  {
    var i :| 0 <= i < |s| && s[i] == x;
    var n := |s| - 1;
    if Earlier(y, s[n]) {
      InsertedBehind(x, y, s[..n]);
      var t := Insert(y, s[..n], Earlier);
      var a, b :| 0 <= a < b < |t| && t[a] == x && t[b] == y;
      assert Insert(y, s, Earlier)[a] == x && Insert(y, s, Earlier)[b] == y;
    } else {
      assert (s + [y])[i] == x && (s + [y])[n + 1] == y;
    }
  }

  lemma LastTwoInOrder(rest: seq<Ingress>, x: Ingress, y: Ingress)
    requires x.created == y.created
    ensures Before(InOrder(rest + [x, y]), x, y)
  {
    var s := rest + [x];
    assert (rest + [x, y])[..|s|] == s && s[..|rest|] == rest;
    InsertKeepsElements(x, InOrder(rest), Earlier);
    assert x in multiset(InOrder(s));
    InsertedBehind(x, y, InOrder(s));
  }

  lemma TwiceCounted(s: seq<Ingress>, i: nat, j: nat)
    requires i < j < |s| && s[i] == s[j]
    ensures multiset(s)[s[i]] >= 2
  {
    assert s == s[..i] + [s[i]] + s[i + 1..j] + [s[j]] + s[j + 1..];
  }

  lemma BothWaysIsTwice(s: seq<Ingress>, x: Ingress, y: Ingress)
    requires Before(s, x, y) && Before(s, y, x)
    ensures multiset(s)[x] >= 2 || multiset(s)[y] >= 2
  {
    var i, j :| 0 <= i < j < |s| && s[i] == x && s[j] == y;
    var k, l :| 0 <= k < l < |s| && s[k] == y && s[l] == x;
    if i == l {
      TwiceCounted(s, k, j);
    } else {
      TwiceCounted(s, if i < l then i else l, if i < l then l else i);
    }
  }

  lemma SortedCountsOne(a: seq<Ingress>, derived: Derived, x: Ingress)
    requires Lists(a, derived) && x in a
    ensures multiset(InOrder(a))[x] == 1
  {
    InOrderSorts(a);
    DistinctCountsOne(a, x);
  }

  /** The listing order stays hidden exactly when no two ingresses share a creation time. */
  lemma ListOrderHiddenIffDistinctTimes(derived: Derived)
    requires forall k :: k in derived ==> IngressKey(derived[k]) == k
    ensures ListOrderHidden(derived) <==> DistinctTimes(derived)
  {
    if DistinctTimes(derived) {
      forall a, b | Lists(a, derived) && Lists(b, derived) ensures InOrder(a) == InOrder(b) {
        ListOrderDoesNotShow(a, b, derived);
      }
    } else {
      var j, k :| j in derived && k in derived && j != k && derived[j].created == derived[k].created;
      TieShowsOrder(derived, j, k);
    }
  }

  lemma TieShowsOrder(derived: Derived, j: string, k: string)
    requires forall i :: i in derived ==> IngressKey(derived[i]) == i
    requires j in derived && k in derived && j != k && derived[j].created == derived[k].created
    ensures !ListOrderHidden(derived)
  {
    var rest := ListingExists(derived - {j, k});
    ListsBoth(rest, derived, j, k);
    ListsBoth(rest, derived, k, j);
    SwapShows(rest, derived, derived[j], derived[k]);
  }

  /** Swapping two tied ingresses in the listing swaps them in the result. */
  lemma SwapShows(rest: seq<Ingress>, derived: Derived, x: Ingress, y: Ingress)
    requires Lists(rest + [x, y], derived) && x.created == y.created
    ensures InOrder(rest + [x, y]) != InOrder(rest + [y, x])
  {
    var a := rest + [x, y];
    LastTwoInOrder(rest, x, y);
    LastTwoInOrder(rest, y, x);
    assert a[|rest|] == x && a[|rest| + 1] == y;
    SortedCountsOne(a, derived, x);
    SortedCountsOne(a, derived, y);
    if InOrder(a) == InOrder(rest + [y, x]) {
      BothWaysIsTwice(InOrder(a), x, y);
    }
  }

  lemma ListsBoth(rest: seq<Ingress>, derived: Derived, j: string, k: string)
    requires j in derived && k in derived && j != k && IngressKey(derived[j]) == j && IngressKey(derived[k]) == k
    requires Lists(rest, derived - {j, k})
    ensures Lists(rest + [derived[j], derived[k]], derived)
  {
    var less := derived - {j, k};
    OneMoreListed(rest, less, j, derived[j]);
    OneMoreListed(rest + [derived[j]], less[j := derived[j]], k, derived[k]);
    assert less[j := derived[j]][k := derived[k]] == derived;
    assert rest + [derived[j]] + [derived[k]] == rest + [derived[j], derived[k]];
  }
}
