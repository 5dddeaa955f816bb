/** The bookkeeping behind `on`'s unbind closures, as values, and the invariant that ties it
    to the handler lists. */
module HubState {
  import opened ListSeparator
  import opened Registry

  /** One `unbind` closure of src/index.js:306-318: the type it was made for and its data
      object. Its `isBound` flag is whether it is still in `bound`. */
  datatype Ref = Ref(eventType: string, uid: Uid)

  /** The registry part of the hub: the handler lists, the `isBound` flags still set, each
      `on` call's `unbindListeners`, and the number of `on` calls that got that far. */
  datatype Registrations = Registrations(listeners: map<string, seq<Entry>>, bound: set<Ref>,
                                         unbinders: map<nat, seq<Ref>>, calls: nat)

  /** A data object's `wrappedListener` is its listener, or the once-wrapper of its call. */
  predicate WellWrapped(e: Entry) {
    e.wrapped == if e.once then OnceWrapper(e.listener, e.uid.group) else Plain(e.listener)
  }

  /** A data object in the list of `t` is reachable from its call's `unbindAll` and its
      closure has not run yet. */
  predicate Tracks(s: Registrations, t: string, e: Entry) {
    WellWrapped(e) && Ref(t, e.uid) in s.bound
    && e.uid.group in s.unbinders && Ref(t, e.uid) in s.unbinders[e.uid.group]
  }

  /** The invariant of the registry:
      - no data object appears twice in a list;
      - every listed data object is tracked by its call;
      - each call's closures belong to that call and to a type that has a list. */
  predicate Registered(s: Registrations) {
    (forall t :: t in s.listeners ==> UniqueUids(s.listeners[t]))
    && (forall t, e :: t in s.listeners && e in s.listeners[t] ==> Tracks(s, t, e))
    && (forall g :: g in s.unbinders ==>
          g < s.calls && forall r :: r in s.unbinders[g] ==> r.uid.group == g && r.eventType in s.listeners)
  }

  /** No data object of any list belongs to the call `g`. */
  predicate GroupAbsent(ls: map<string, seq<Entry>>, g: nat) {
    forall t, e :: t in ls && e in ls[t] ==> e.uid.group != g
  }

  /** The start of an `on` call's type loop: a new call id and an empty `unbindListeners`. */
  function OpenGroup(s: Registrations): Registrations {
    s.(unbinders := s.unbinders[s.calls := []], calls := s.calls + 1)
  }

  /** Opening a call keeps the invariant, and no listed data object belongs to the new call. */
  lemma OpenGroupKeepsRegistered(s: Registrations)
    requires Registered(s)
    ensures Registered(OpenGroup(s)) && GroupAbsent(s.listeners, s.calls)
  {
    forall t, e | t in s.listeners && e in s.listeners[t] ensures e.uid.group != s.calls {
      assert Tracks(s, t, e);
    }
  }

  /** One pass of the type loop: the new data object `e` of the open call is placed in the
      list of `t`, and its closure is set bound and pushed onto the call's `unbindListeners`. */
  function BindOne(s: Registrations, t: string, e: Entry, lifo: bool): Registrations
    requires e.uid.group in s.unbinders
  {
    var r := Ref(t, e.uid);
    s.(listeners := s.listeners[t := Place(Get(s.listeners, t), e, lifo)],
       bound := s.bound + {r},
       unbinders := s.unbinders[e.uid.group := s.unbinders[e.uid.group] + [r]])
  }

  /** Binding a well-formed data object whose identity is not yet used keeps the invariant. */
  lemma BindOneKeepsRegistered(s: Registrations, t: string, e: Entry, lifo: bool)
    requires Registered(s) && WellWrapped(e) && e.uid.group in s.unbinders
    requires forall u, h :: u in s.listeners && h in s.listeners[u] ==> h.uid != e.uid
    ensures Registered(BindOne(s, t, e, lifo))
  {
    var s' := BindOne(s, t, e, lifo);
    assert UniqueUids(Get(s.listeners, t)) && forall h :: h in Get(s.listeners, t) ==> h.uid != e.uid;
    PlaceKeepsUnique(Get(s.listeners, t), e, lifo);
    BindOneTracks(s, t, e, lifo);
    assert forall g :: g in s'.unbinders ==>
             g < s'.calls && forall r :: r in s'.unbinders[g] ==> r.uid.group == g && r.eventType in s'.listeners;
  }

  /** After binding, every listed data object is tracked: the new one by its fresh closure,
      the others as before. */
  lemma BindOneTracks(s: Registrations, t: string, e: Entry, lifo: bool)
    requires Registered(s) && WellWrapped(e) && e.uid.group in s.unbinders
    requires forall h :: h in Place(Get(s.listeners, t), e, lifo) <==> h in Get(s.listeners, t) || h == e
    ensures var s' := BindOne(s, t, e, lifo);
            forall u, h :: u in s'.listeners && h in s'.listeners[u] ==> Tracks(s', u, h)
  {
    var s' := BindOne(s, t, e, lifo);
    forall u, h | u in s'.listeners && h in s'.listeners[u] ensures Tracks(s', u, h) {
      if h != e || u != t {
        assert u in s.listeners && h in s.listeners[u];
        assert Tracks(s, u, h);
      }
    }
  }

  /** The lists after a removal from the list of `t`. */
  function Remove(s: Registrations, t: string, f: Filter): Registrations
    requires t in s.listeners
  {
    s.(listeners := s.listeners[t := Without(s.listeners[t], f)])
  }

  /** Taking data objects out of a list keeps the invariant. */
  lemma RemoveKeepsRegistered(s: Registrations, t: string, f: Filter)
    requires Registered(s) && t in s.listeners
    ensures Registered(Remove(s, t, f))
  {
    WithoutKeepsUnique(s.listeners[t], f);
    WithoutMembers(s.listeners[t], f);
  }

  /** An `unbind` closure that runs: its flag is cleared and its data object taken out. */
  function Unbound(s: Registrations, r: Ref): Registrations
    requires r.eventType in s.listeners
  {
    Remove(s, r.eventType, ByUids({r.uid})).(bound := s.bound - {r})
  }

  /** Running an `unbind` closure keeps the invariant. */
  lemma UnboundKeepsRegistered(s: Registrations, r: Ref)
    requires Registered(s) && r.eventType in s.listeners
    ensures Registered(Unbound(s, r))
  {
    RemoveKeepsRegistered(s, r.eventType, ByUids({r.uid}));
    var s' := Unbound(s, r);
    WithoutMembers(s.listeners[r.eventType], ByUids({r.uid}));
    forall u, h | u in s'.listeners && h in s'.listeners[u] ensures Tracks(s', u, h) {
      assert Tracks(Remove(s, r.eventType, ByUids({r.uid})), u, h);
    }
  }

  /** An `unbind` closure whose flag is already cleared has no data object in the lists, so
      running it changes nothing: the closure is idempotent. */
  lemma UnboundTwice(s: Registrations, r: Ref)
    requires Registered(s) && r.eventType in s.listeners && r !in s.bound
    ensures Without(s.listeners[r.eventType], ByUids({r.uid})) == s.listeners[r.eventType]
  {
    forall e | e in s.listeners[r.eventType] ensures !Hit(ByUids({r.uid}), e) {
      assert Tracks(s, r.eventType, e);
    }
    WithoutUnchanged(s.listeners[r.eventType], ByUids({r.uid}));
  }

  /** The lists after the closures `rs` have run one after the other, each taking its data
      object out of the list of its type. */
  function UnbindRefs(ls: map<string, seq<Entry>>, rs: seq<Ref>): (r: map<string, seq<Entry>>)
    ensures r.Keys == ls.Keys
  {
    if rs == [] then ls
    else
      var n := |rs| - 1;
      var prev := UnbindRefs(ls, rs[..n]);
      var t := rs[n].eventType;
      if t in prev then prev[t := Without(prev[t], ByUids({rs[n].uid}))] else prev
  }

  /** One more closure run. */
  lemma UnbindRefsStep(ls: map<string, seq<Entry>>, rs: seq<Ref>, i: nat)
    requires i < |rs|
    ensures var prev := UnbindRefs(ls, rs[..i]);
            var t := rs[i].eventType;
            UnbindRefs(ls, rs[..i + 1]) == if t in prev then prev[t := Without(prev[t], ByUids({rs[i].uid}))] else prev
  {
    assert rs[..i + 1][..i] == rs[..i];
  }

  /** The data objects of `t` whose closures are among `rs`. */
  function UidsFor(rs: seq<Ref>, t: string): set<Uid> {
    set r | r in rs && r.eventType == t :: r.uid
  }

  /** The closures of a call reach exactly its data objects: removing the data objects of
      the call's closures for `t` is removing the call's data objects from that list. */
  lemma UnbindersCoverGroup(s: Registrations, g: nat, t: string)
    requires Registered(s) && g in s.unbinders && t in s.listeners
    ensures Without(s.listeners[t], ByUids(UidsFor(s.unbinders[g], t))) == Without(s.listeners[t], ByGroups({g}))
  {
    forall e | e in s.listeners[t]
      ensures Hit(ByUids(UidsFor(s.unbinders[g], t)), e) <==> Hit(ByGroups({g}), e)
    {
      assert Tracks(s, t, e);
      if e.uid.group == g {
        assert Ref(t, e.uid) in s.unbinders[g];
      }
    }
    WithoutAgree(s.listeners[t], ByUids(UidsFor(s.unbinders[g], t)), ByGroups({g}));
  }

  /** The once-wrapper of a listed data object belongs to a call whose `unbindAll` exists. */
  lemma OnceWrapperCallOpen(s: Registrations, t: string, k: Key, w: Wrapped)
    requires Registered(s) && t in s.listeners && w in Bucket(s.listeners[t], k) && w.OnceWrapper?
    ensures w.group in s.unbinders
  {
    BucketMember(s.listeners[t], k, w);
    var e :| e in s.listeners[t] && e.wrapped == w && KeyOf(e.capture, e.passive) == k;
    assert Tracks(s, t, e);
  }

  /** Every once-wrapper of a partition of a listed type belongs to a call whose
      `unbindAll` exists. */
  lemma OnceWrappersOpen(s: Registrations, t: string, k: Key)
    requires Registered(s) && t in s.listeners
    ensures forall w :: w in Bucket(s.listeners[t], k) && w.OnceWrapper? ==> w.group in s.unbinders
  {
    forall w | w in Bucket(s.listeners[t], k) && w.OnceWrapper? ensures w.group in s.unbinders {
      OnceWrapperCallOpen(s, t, k, w);
    }
  }

  /** Running closures one after the other takes out, from each list, the data objects of
      the closures made for its type. */
  lemma {:induction false} UnbindRefsUids(ls: map<string, seq<Entry>>, rs: seq<Ref>, t: string)
    requires t in ls
    ensures UnbindRefs(ls, rs)[t] == Without(ls[t], ByUids(UidsFor(rs, t)))
  {
    if rs == [] {
      assert UidsFor(rs, t) == {};
      WithoutUnchanged(ls[t], ByUids({}));
    } else {
      var n := |rs| - 1;
      var prefix := rs[..n];
      UnbindRefsUids(ls, prefix, t);
      assert rs == prefix + [rs[n]];
      var a := UidsFor(prefix, t);
      if rs[n].eventType == t {
        assert UidsFor(rs, t) == a + {rs[n].uid};
        WithoutBoth(ls[t], ByUids(a), ByUids({rs[n].uid}), ByUids(a + {rs[n].uid}));
      } else {
        assert UidsFor(rs, t) == a;
      }
    }
  }

  /** `unbindAll` of the call `g`: running all its closures removes exactly the call's data
      objects from every list. */
  lemma UnbindAllRemovesGroup(s: Registrations, g: nat, t: string)
    requires Registered(s) && g in s.unbinders && t in s.listeners
    ensures UnbindRefs(s.listeners, s.unbinders[g])[t] == Without(s.listeners[t], ByGroups({g}))
  {
    UnbindRefsUids(s.listeners, s.unbinders[g], t);
    UnbindersCoverGroup(s, g, t);
  }

  /** The lists `after` are the lists `before` without the data objects of the calls `gs`. */
  predicate GroupsRemoved(before: map<string, seq<Entry>>, after: map<string, seq<Entry>>, gs: set<nat>) {
    after.Keys == before.Keys && forall t :: t in after ==> after[t] == Without(before[t], ByGroups(gs))
  }

  /** Removing the calls `gs` and then the call `g` removes the calls `gs + {g}`. */
  lemma GroupsRemovedTwice(a: map<string, seq<Entry>>, b: map<string, seq<Entry>>, c: map<string, seq<Entry>>,
                           gs: set<nat>, g: nat)
    requires GroupsRemoved(a, b, gs) && GroupsRemoved(b, c, {g})
    ensures GroupsRemoved(a, c, gs + {g})
  {
    forall t | t in c ensures c[t] == Without(a[t], ByGroups(gs + {g})) {
      WithoutBoth(a[t], ByGroups(gs), ByGroups({g}), ByGroups(gs + {g}));
    }
  }

  /** Removing no call changes no list. */
  lemma GroupsRemovedNone(ls: map<string, seq<Entry>>)
    ensures GroupsRemoved(ls, ls, {})
  {
    forall t | t in ls ensures ls[t] == Without(ls[t], ByGroups({})) {
      WithoutUnchanged(ls[t], ByGroups({}));
    }
  }

  /** While the type loop of a call runs, the identity of its next data object is unused. */
  lemma BindAllFresh(ls: map<string, seq<Entry>>, types: seq<string>, p: Proto, g: nat, lifo: bool,
                     passiveTypes: seq<string>)
    requires GroupAbsent(ls, g)
    ensures var r := BindAll(ls, types, p, g, lifo, passiveTypes);
            forall u, h :: u in r && h in r[u] ==> h.uid != Uid(g, |types|)
  {
    var r := BindAll(ls, types, p, g, lifo, passiveTypes);
    forall u: string, h: Entry | u in r && h in r[u] ensures h.uid != Uid(g, |types|) {
      BindAllMembers(ls, types, p, g, lifo, passiveTypes, u, h);
    }
  }

  /** The closures the `on` call `g` pushes onto its `unbindListeners`, one per type. */
  function RefsOf(types: seq<string>, g: nat): (rs: seq<Ref>)
    ensures |rs| == |types|
  {
    if types == [] then []
    else
      var n := |types| - 1;
      RefsOf(types[..n], g) + [Ref(types[n], Uid(g, n))]
  }

  /** The closures of a list, as a set. */
  function Elements(rs: seq<Ref>): set<Ref> {
    if rs == [] then {} else Elements(rs[..|rs| - 1]) + {rs[|rs| - 1]}
  }

  /** The `on` calls whose once-wrappers are among `ws`. */
  function OnceGroups(ws: seq<Wrapped>): set<nat> {
    if ws == [] then {}
    else
      var n := |ws| - 1;
      OnceGroups(ws[..n]) + (if ws[n].OnceWrapper? then {ws[n].group} else {})
  }

  /** One more pass of `on`'s type loop pushes one more closure. */
  lemma RefsOfNext(types: seq<string>, g: nat, i: nat)
    requires i < |types|
    ensures RefsOf(types[..i + 1], g) == RefsOf(types[..i], g) + [Ref(types[i], Uid(g, i))]
  {
    assert types[..i + 1][..i] == types[..i];
  }

  lemma ElementsAppend(rs: seq<Ref>, r: Ref)
    ensures Elements(rs + [r]) == Elements(rs) + {r}
  {
    assert (rs + [r])[..|rs|] == rs;
  }

  /** Pushing a closure onto the open call's `unbindListeners` and setting it bound. */
  lemma PushRef(us: map<nat, seq<Ref>>, b: set<Ref>, g: nat, rs: seq<Ref>, r: Ref)
    ensures us[g := rs][g := rs + [r]] == us[g := rs + [r]]
    ensures b + Elements(rs) + {r} == b + Elements(rs + [r])
  {
    ElementsAppend(rs, r);
  }

  /** Replacing a call's `unbindListeners` twice keeps the second. */
  lemma Overwrite(us: map<nat, seq<Ref>>, g: nat, a: seq<Ref>, b: seq<Ref>)
    ensures us[g := a][g := b] == us[g := b]
  {
  }

  /** One more fired handler. */
  lemma OnceGroupsNext(ws: seq<Wrapped>, i: nat)
    requires i < |ws|
    ensures OnceGroups(ws[..i + 1]) == OnceGroups(ws[..i]) + if ws[i].OnceWrapper? then {ws[i].group} else {}
  {
    assert ws[..i + 1][..i] == ws[..i];
  }

  /** The closures whose `isBound` flags the `unbindAll` of the calls of the once-wrappers
      among `ws` clears, given each call's `unbindListeners`. */
  function OnceRefs(us: map<nat, seq<Ref>>, ws: seq<Wrapped>): set<Ref> {
    if ws == [] then {}
    else
      var n := |ws| - 1;
      OnceRefs(us, ws[..n]) + if ws[n].OnceWrapper? && ws[n].group in us then Elements(us[ws[n].group]) else {}
  }

  lemma OnceRefsNext(us: map<nat, seq<Ref>>, ws: seq<Wrapped>, i: nat)
    requires i < |ws|
    ensures OnceRefs(us, ws[..i + 1])
         == OnceRefs(us, ws[..i]) + if ws[i].OnceWrapper? && ws[i].group in us then Elements(us[ws[i].group]) else {}
  {
    assert ws[..i + 1][..i] == ws[..i];
  }

  lemma ElementsNext(rs: seq<Ref>, i: nat)
    requires i < |rs|
    ensures Elements(rs[..i + 1]) == Elements(rs[..i]) + {rs[i]}
  {
    assert rs[..i + 1][..i] == rs[..i];
  }

  /** The set of a list of closures holds exactly its closures. */
  lemma {:induction false} ElementsMembers(rs: seq<Ref>)
    ensures forall r :: r in Elements(rs) <==> r in rs
  {
    if rs != [] {
      var n := |rs| - 1;
      ElementsMembers(rs[..n]);
      assert rs == rs[..n] + [rs[n]];
    }
  }

  /** The flags a dispatch clears are those of the calls of its once-wrappers and no others:
      every closure among them belongs to one of those calls. */
  lemma {:induction false} OnceRefsOfOnceGroups(s: Registrations, ws: seq<Wrapped>)
    requires Registered(s)
    ensures forall r :: r in OnceRefs(s.unbinders, ws) ==> r.uid.group in OnceGroups(ws)
  {
    if ws != [] {
      var n := |ws| - 1;
      OnceRefsOfOnceGroups(s, ws[..n]);
      if ws[n].OnceWrapper? && ws[n].group in s.unbinders {
        ElementsMembers(s.unbinders[ws[n].group]);
      }
    }
  }
}
