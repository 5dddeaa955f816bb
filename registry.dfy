/** The handler lists of `InputHub`, as values: which data objects a removal takes away,
    where a new one goes, and which DOM listeners a list needs. */
module Registry {
  import opened Wrappers
  import opened ListSeparator

  /** The options of `on`, `once` and `off`, each `null`/`undefined` (`None`) or the
      truthiness of what was passed. `life` is the property `on` reads to decide whether
      `lifo` was given. */
  datatype BindOptions = BindOptions(once: Option<bool>, capture: Option<bool>, passive: Option<bool>,
                                     lifo: Option<bool>, life: Option<bool>)

  /** `{}` */
  const NoOptions := BindOptions(None, None, None, None, None)

  /** The third argument of `on`, `once` and `off`. */
  datatype OptionsArg = Undefined | Null | Object(o: BindOptions) | Primitive

  /** The second argument: a listener function, or anything else. */
  datatype ListenerArg = Fn(f: FnId) | NonFunction

  /** `isMatch` of `off`: the listener, and `passive` and `capture` where they were given. */
  datatype Matcher = Matcher(listener: FnId, passive: Option<bool>, capture: Option<bool>)

  /** Which data objects a removal takes away. */
  datatype Filter =
    | ByMatcher(m: Matcher)  // `off`
    | ByUids(uids: set<Uid>) // the `unbind` closures of single data objects
    | ByGroups(groups: set<nat>) // every data object of some `on` calls

  predicate Hit(f: Filter, e: Entry) {
    match f
    case ByMatcher(m) =>
      m.listener == e.listener
      && (m.passive.None? || m.passive.value == e.passive)
      && (m.capture.None? || m.capture.value == e.capture)
    case ByUids(us) => e.uid in us
    case ByGroups(gs) => e.uid.group in gs
  }

  /** The list with the hit data objects taken out, the others kept in order. */
  function Without(hs: seq<Entry>, f: Filter): (r: seq<Entry>)
    ensures |r| <= |hs|
  {
    if hs == [] then []
    else (if Hit(f, hs[0]) then [] else [hs[0]]) + Without(hs[1..], f)
  }

  /** What the removal keeps: exactly the data objects of the list that are not hit. */
  lemma {:induction false} WithoutMembers(hs: seq<Entry>, f: Filter)
    ensures forall e :: e in Without(hs, f) <==> e in hs && !Hit(f, e)
  {
    if hs != [] {
      WithoutMembers(hs[1..], f);
      assert forall e :: e in hs <==> e == hs[0] || e in hs[1..];
    }
  }

  /** Removal distributes over concatenation. */
  lemma {:induction false} WithoutAppend(a: seq<Entry>, b: seq<Entry>, f: Filter)
    ensures Without(a + b, f) == Without(a, f) + Without(b, f)
  {
    if a != [] {
      assert (a + b)[1..] == a[1..] + b;
      WithoutAppend(a[1..], b, f);
    } else {
      assert a + b == b;
    }
  }

  /** A removal changes the list exactly when something in it is hit; this is the
      `hasChanged` flag of `off`. */
  lemma {:induction false} WithoutUnchanged(hs: seq<Entry>, f: Filter)
    ensures Without(hs, f) == hs <==> forall e :: e in hs ==> !Hit(f, e)
    ensures |Without(hs, f)| == |hs| <==> forall e :: e in hs ==> !Hit(f, e)
  {
    if hs != [] {
      WithoutUnchanged(hs[1..], f);
      if Hit(f, hs[0]) {
        assert |Without(hs, f)| < |hs|;
      } else {
        assert forall e :: e in hs <==> e == hs[0] || e in hs[1..];
        assert hs == [hs[0]] + hs[1..];
      }
    }
  }

  /** The first step of a removal, at any position of a list. */
  lemma WithoutFrom(hs: seq<Entry>, i: nat, f: Filter)
    requires i < |hs|
    ensures Without(hs[i..], f) == (if Hit(f, hs[i]) then [] else [hs[i]]) + Without(hs[i + 1..], f)
  {
    assert hs[i..][1..] == hs[i + 1..];
  }

  /** Removing twice removes nothing more. */
  lemma WithoutIdempotent(hs: seq<Entry>, f: Filter)
    ensures Without(Without(hs, f), f) == Without(hs, f)
  {
    WithoutMembers(hs, f);
    WithoutUnchanged(Without(hs, f), f);
  }

  /** Two filters that hit the same data objects of a list remove the same ones. */
  lemma {:induction false} WithoutAgree(hs: seq<Entry>, f: Filter, f': Filter)
    requires forall e :: e in hs ==> (Hit(f, e) <==> Hit(f', e))
    ensures Without(hs, f) == Without(hs, f')
  {
    if hs != [] {
      assert forall e :: e in hs[1..] ==> e in hs;
      WithoutAgree(hs[1..], f, f');
    }
  }

  /** Removing with one filter and then another is removing with a filter that hits what
      either of them hits. */
  lemma {:induction false} WithoutBoth(hs: seq<Entry>, f: Filter, f': Filter, both: Filter)
    requires forall e :: e in hs ==> (Hit(both, e) <==> Hit(f, e) || Hit(f', e))
    ensures Without(Without(hs, f), f') == Without(hs, both)
  {
    if hs != [] {
      assert forall e :: e in hs[1..] ==> e in hs;
      WithoutBoth(hs[1..], f, f', both);
      var h := if Hit(f, hs[0]) then [] else [hs[0]];
      WithoutAppend(h, Without(hs[1..], f), f');
      assert Without(h, f') == (if Hit(both, hs[0]) then [] else [hs[0]]) by {
        if h != [] {
          assert h[1..] == [];
        }
      }
    }
  }

  /** No two data objects of a list share an identity. */
  predicate UniqueUids(hs: seq<Entry>) {
    forall i, j :: 0 <= i < j < |hs| ==> hs[i].uid != hs[j].uid
  }

  /** `handlers.indexOf(data)`: the position of the data object, or -1. */
  function IndexOf(hs: seq<Entry>, u: Uid): (i: int)
    ensures -1 <= i < |hs|
    ensures i == -1 <==> forall e :: e in hs ==> e.uid != u
    ensures 0 <= i ==> hs[i].uid == u && forall j :: 0 <= j < i ==> hs[j].uid != u
  {
    if hs == [] then -1
    else if hs[0].uid == u then 0
    else
      var i := IndexOf(hs[1..], u);
      if i == -1 then -1 else i + 1
  }

  /** `handlers.splice(i, 1)` at the position of a data object, in a list without repeated
      identities, removes that data object and nothing else. */
  lemma {:induction false} SpliceAt(hs: seq<Entry>, i: nat)
    requires i < |hs| && UniqueUids(hs)
    ensures hs[..i] + hs[i + 1..] == Without(hs, ByUids({hs[i].uid}))
  {
    var f := ByUids({hs[i].uid});
    if i == 0 {
      forall e | e in hs[1..] ensures !Hit(f, e) {
        var j :| 1 <= j < |hs| && hs[j] == e;
      }
      WithoutUnchanged(hs[1..], f);
    } else {
      var t := hs[1..];
      assert UniqueUids(t);
      SpliceAt(t, i - 1);
      assert hs[..i] + hs[i + 1..] == [hs[0]] + (t[..i - 1] + t[i..]);
    }
  }

  /** Removal keeps identities unique. */
  lemma {:induction false} WithoutKeepsUnique(hs: seq<Entry>, f: Filter)
    requires UniqueUids(hs)
    ensures UniqueUids(Without(hs, f))
  {
    if hs != [] {
      WithoutKeepsUnique(hs[1..], f);
      WithoutMembers(hs[1..], f);
      var r := Without(hs[1..], f);
      forall e | e in r ensures e.uid != hs[0].uid {
        var j :| 1 <= j < |hs| && hs[j] == e;
      }
    }
  }

  /** Where `on` puts a new data object: first under `lifo`, last otherwise. */
  function Place(hs: seq<Entry>, e: Entry, lifo: bool): (r: seq<Entry>)
    ensures |r| == |hs| + 1
    ensures lifo ==> r[0] == e && r[1..] == hs
    ensures !lifo ==> r[|r| - 1] == e && r[..|r| - 1] == hs
  {
    if lifo then [e] + hs else hs + [e]
  }

  /** Placing a data object with a new identity keeps identities unique and adds exactly it. */
  lemma PlaceKeepsUnique(hs: seq<Entry>, e: Entry, lifo: bool)
    requires UniqueUids(hs) && forall h :: h in hs ==> h.uid != e.uid
    ensures UniqueUids(Place(hs, e, lifo))
    ensures forall h :: h in Place(hs, e, lifo) <==> h in hs || h == e
  {
    if lifo {
      assert Place(hs, e, lifo) == [e] + hs;
    } else {
      assert Place(hs, e, lifo) == hs + [e];
    }
  }

  /** A new data object fires first in its partition under `lifo` and last otherwise, and no
      other partition changes. */
  lemma PlaceOrdersBucket(hs: seq<Entry>, e: Entry, lifo: bool, k: Key)
    ensures Bucket(Place(hs, e, lifo), k) ==
              if KeyOf(e.capture, e.passive) != k then Bucket(hs, k)
              else if lifo then [e.wrapped] + Bucket(hs, k)
              else Bucket(hs, k) + [e.wrapped]
  {
    if lifo {
      BucketPrepend(e, hs, k);
    } else {
      BucketAppend(hs, e, k);
    }
  }

  /** Binding and then unbinding the same `on` call leaves the list as it was. */
  lemma BindThenUnbind(hs: seq<Entry>, e: Entry, lifo: bool)
    ensures Without(Place(hs, e, lifo), ByGroups({e.uid.group})) == Without(hs, ByGroups({e.uid.group}))
  {
    assert Without([e], ByGroups({e.uid.group})) == [] by {
      assert [e][1..] == [];
    }
    if lifo {
      WithoutAppend([e], hs, ByGroups({e.uid.group}));
    } else {
      WithoutAppend(hs, [e], ByGroups({e.uid.group}));
    }
  }

  /** The option partitions that have at least one handler: those `updateDomBindings`
      keeps a DOM listener for. */
  function Needed(hs: seq<Entry>): set<Key> {
    set k | k in OptionKeys && Bucket(hs, k) != []
  }

  /** A partition is non-empty exactly when some data object of the list belongs to it. */
  lemma {:induction false} BucketNonEmpty(hs: seq<Entry>, k: Key)
    ensures Bucket(hs, k) != [] <==> exists e :: e in hs && KeyOf(e.capture, e.passive) == k
  {
    if hs != [] {
      var n := |hs| - 1;
      BucketNonEmpty(hs[..n], k);
      assert forall e :: e in hs <==> e in hs[..n] || e == hs[n] by {
        assert hs == hs[..n] + [hs[n]];
      }
    }
  }

  /** The DOM listeners a list needs are the partitions of its data objects. */
  lemma NeededIsKeysOfEntries(hs: seq<Entry>)
    ensures forall k :: k in Needed(hs) <==> exists e :: e in hs && KeyOf(e.capture, e.passive) == k
  {
    forall k {
      BucketNonEmpty(hs, k);
    }
  }

  /** A type's handler list; a type never bound has none. */
  function Get(ls: map<string, seq<Entry>>, t: string): seq<Entry> {
    if t in ls then ls[t] else []
  }

  /** What one `on` call knows before it looks at a type: the listener, `once`, `capture`,
      and the `passive` option as given. */
  datatype Proto = Proto(listener: FnId, once: bool, capture: bool, passive: Option<bool>)

  /** `passive` for one type: the option when given, else membership in `passiveTypes`. */
  function PassiveFor(passive: Option<bool>, t: string, passiveTypes: seq<string>): bool {
    if passive.Some? then passive.value else t in passiveTypes
  }

  /** The data object the `on` call `g` makes for the type at position `i` of its type list;
      a `once` listener is wrapped so that calling it unbinds the whole call. */
  function NewEntry(p: Proto, t: string, g: nat, i: nat, passiveTypes: seq<string>): Entry {
    Entry(p.listener, if p.once then OnceWrapper(p.listener, g) else Plain(p.listener),
          p.capture, PassiveFor(p.passive, t, passiveTypes), p.once, Uid(g, i))
  }

  /** The lists after `off` has run over `types`, one type after the other: a bound type
      loses the data objects the matcher hits, a type never bound is skipped. */
  function OffAll(ls: map<string, seq<Entry>>, types: seq<string>, m: Matcher): (r: map<string, seq<Entry>>)
    ensures r.Keys == ls.Keys
  {
    if types == [] then ls
    else
      var n := |types| - 1;
      var prev := OffAll(ls, types[..n], m);
      if types[n] in prev then prev[types[n] := Without(prev[types[n]], ByMatcher(m))] else prev
  }

  /** One more pass of `on`'s type loop. */
  lemma BindAllNext(ls: map<string, seq<Entry>>, types: seq<string>, p: Proto, g: nat, lifo: bool,
                    passiveTypes: seq<string>, i: nat)
    requires i < |types|
    ensures var prev := BindAll(ls, types[..i], p, g, lifo, passiveTypes);
            BindAll(ls, types[..i + 1], p, g, lifo, passiveTypes)
            == prev[types[i] := Place(Get(prev, types[i]), NewEntry(p, types[i], g, i, passiveTypes), lifo)]
  {
    assert types[..i + 1][..i] == types[..i];
  }

  /** One step of `off`'s type loop. */
  lemma OffAllStep(ls: map<string, seq<Entry>>, types: seq<string>, i: nat, m: Matcher)
    requires i < |types|
    ensures var prev := OffAll(ls, types[..i], m);
            OffAll(ls, types[..i + 1], m)
            == if types[i] in ls then prev[types[i] := Without(prev[types[i]], ByMatcher(m))] else prev
  {
    assert types[..i + 1][..i] == types[..i];
  }

  /** What `off` leaves, type by type: each bound type it names loses every match, however
      often it is named, and every other list is kept. */
  lemma {:induction false} OffAllRemovesMatches(ls: map<string, seq<Entry>>, types: seq<string>, m: Matcher, t: string)
    ensures Get(OffAll(ls, types, m), t) == if t in types then Without(Get(ls, t), ByMatcher(m)) else Get(ls, t)
  {
    if types != [] {
      var n := |types| - 1;
      OffAllRemovesMatches(ls, types[..n], m, t);
      assert forall u :: u in types <==> u in types[..n] || u == types[n] by {
        assert types == types[..n] + [types[n]];
      }
      if t == types[n] && t in ls {
        WithoutIdempotent(ls[t], ByMatcher(m));
      }
    }
  }

  /** The lists after the type loop of the `on` call `g`: one new data object per entry of
      `types`, in order, each placed by `lifo`. */
  function BindAll(ls: map<string, seq<Entry>>, types: seq<string>, p: Proto, g: nat, lifo: bool,
                   passiveTypes: seq<string>): (r: map<string, seq<Entry>>)
    ensures forall t :: t in r <==> t in ls || t in types
  {
    if types == [] then ls
    else
      var n := |types| - 1;
      var prev := BindAll(ls, types[..n], p, g, lifo, passiveTypes);
      prev[types[n] := Place(Get(prev, types[n]), NewEntry(p, types[n], g, n, passiveTypes), lifo)]
  }

  /** One step of the type loop, seen from one type. */
  lemma BindAllStep(ls: map<string, seq<Entry>>, types: seq<string>, p: Proto, g: nat,
                    lifo: bool, passiveTypes: seq<string>, t: string)
    requires types != []
    ensures var n := |types| - 1;
            var prev := Get(BindAll(ls, types[..n], p, g, lifo, passiveTypes), t);
            Get(BindAll(ls, types, p, g, lifo, passiveTypes), t)
            == if types[n] == t then Place(prev, NewEntry(p, t, g, n, passiveTypes), lifo) else prev
  {
  }

  /** Unbinding a whole `on` call undoes its type loop: with the call's data objects taken
      out, every list is as it was before the loop. */
  lemma {:induction false} BindAllRoundTrip(ls: map<string, seq<Entry>>, types: seq<string>, p: Proto, g: nat,
                                            lifo: bool, passiveTypes: seq<string>, t: string)
    requires forall e :: e in Get(ls, t) ==> e.uid.group != g
    ensures Without(Get(BindAll(ls, types, p, g, lifo, passiveTypes), t), ByGroups({g})) == Get(ls, t)
  {
    if types == [] {
      WithoutUnchanged(Get(ls, t), ByGroups({g}));
    } else {
      var n := |types| - 1;
      var prev := Get(BindAll(ls, types[..n], p, g, lifo, passiveTypes), t);
      BindAllStep(ls, types, p, g, lifo, passiveTypes, t);
      BindAllRoundTrip(ls, types[..n], p, g, lifo, passiveTypes, t);
      if types[n] == t {
        BindThenUnbind(prev, NewEntry(p, t, g, n, passiveTypes), lifo);
      }
    }
  }

  /** With no type repeated, each type of the call gets exactly one new data object, at the
      front of its list under `lifo` and at the back otherwise. */
  lemma {:induction false} BindAllDistinct(ls: map<string, seq<Entry>>, types: seq<string>, p: Proto, g: nat,
                                           lifo: bool, passiveTypes: seq<string>, i: nat)
    requires i < |types| && forall a, b :: 0 <= a < b < |types| ==> types[a] != types[b]
    ensures Get(BindAll(ls, types, p, g, lifo, passiveTypes), types[i])
         == Place(Get(ls, types[i]), NewEntry(p, types[i], g, i, passiveTypes), lifo)
  {
    var n := |types| - 1;
    BindAllStep(ls, types, p, g, lifo, passiveTypes, types[i]);
    var front := types[..n];
    DistinctFront(types);
    if i < n {
      assert types[n] != types[i] && front[i] == types[i];
      BindAllDistinct(ls, front, p, g, lifo, passiveTypes, i);
    } else {
      BindAllUntouched(ls, front, p, g, lifo, passiveTypes, types[n]);
    }
  }

  /** A list of distinct types without its last type is distinct and lacks that type. */
  lemma DistinctFront(types: seq<string>)
    requires types != [] && forall a, b :: 0 <= a < b < |types| ==> types[a] != types[b]
    ensures var front := types[..|types| - 1];
            && (forall a, b :: 0 <= a < b < |front| ==> front[a] != front[b])
            && types[|types| - 1] !in front
  {
    var n := |types| - 1;
    var front := types[..n];
    forall a, b | 0 <= a < b < |front| ensures front[a] != front[b] {
      assert front[a] == types[a] && front[b] == types[b];
    }
    forall a | 0 <= a < |front| ensures front[a] != types[n] {
      assert front[a] == types[a];
    }
  }

  /** A type outside the call's type list keeps its list. */
  lemma {:induction false} BindAllUntouched(ls: map<string, seq<Entry>>, types: seq<string>, p: Proto, g: nat,
                                            lifo: bool, passiveTypes: seq<string>, t: string)
    requires t !in types
    ensures Get(BindAll(ls, types, p, g, lifo, passiveTypes), t) == Get(ls, t)
  {
    if types != [] {
      var n := |types| - 1;
      assert types[n] in types;
      assert forall x :: x in types[..n] ==> x in types;
      BindAllStep(ls, types, p, g, lifo, passiveTypes, t);
      BindAllUntouched(ls, types[..n], p, g, lifo, passiveTypes, t);
    }
  }

  /** `off` only takes data objects away. */
  lemma OffAllMembers(ls: map<string, seq<Entry>>, types: seq<string>, m: Matcher, t: string, h: Entry)
    requires h in Get(OffAll(ls, types, m), t)
    ensures h in Get(ls, t)
  {
    OffAllRemovesMatches(ls, types, m, t);
    if t in types {
      WithoutMembers(Get(ls, t), ByMatcher(m));
    }
  }

  /** The type loop of the `on` call `g` adds only the data objects it makes, one per
      position of its type list. */
  lemma {:induction false} BindAllMembers(ls: map<string, seq<Entry>>, types: seq<string>, p: Proto, g: nat,
                                          lifo: bool, passiveTypes: seq<string>, t: string, h: Entry)
    requires h in Get(BindAll(ls, types, p, g, lifo, passiveTypes), t)
    ensures h in Get(ls, t) || (h.uid.index < |types| && h == NewEntry(p, t, g, h.uid.index, passiveTypes))
  {
    if types != [] {
      var n := |types| - 1;
      var prev := Get(BindAll(ls, types[..n], p, g, lifo, passiveTypes), t);
      BindAllStep(ls, types, p, g, lifo, passiveTypes, t);
      if types[n] == t {
        var e := NewEntry(p, t, g, n, passiveTypes);
        assert h in prev || h == e by {
          if lifo {
            assert Place(prev, e, lifo) == [e] + prev;
          } else {
            assert Place(prev, e, lifo) == prev + [e];
          }
        }
        if h in prev {
          BindAllMembers(ls, types[..n], p, g, lifo, passiveTypes, t, h);
        }
      } else {
        BindAllMembers(ls, types[..n], p, g, lifo, passiveTypes, t, h);
      }
    }
  }

  /** How many data objects of a list a filter hits. */
  function Count(hs: seq<Entry>, f: Filter): (n: nat)
    ensures n <= |hs|
    ensures n == 0 <==> forall e :: e in hs ==> !Hit(f, e)
  {
    if hs == [] then 0 else (if Hit(f, hs[0]) then 1 else 0) + Count(hs[1..], f)
  }

  /** The matcher of a data object: its listener, `passive` and `capture`. */
  function Triple(e: Entry): Matcher {
    Matcher(e.listener, Some(e.passive), Some(e.capture))
  }

  /** No double binding: after `off` has cleared the listener from a type, binding it once
      leaves exactly one data object with its listener, `capture` and `passive` there. */
  lemma OneBindingPerType(hs: seq<Entry>, m: Matcher, e: Entry, lifo: bool)
    requires e.listener == m.listener
    requires m.passive.None? || m.passive == Some(e.passive)
    requires m.capture.None? || m.capture == Some(e.capture)
    ensures Count(Place(Without(hs, ByMatcher(m)), e, lifo), ByMatcher(Triple(e))) == 1
  {
    var rest := Without(hs, ByMatcher(m));
    WithoutMembers(hs, ByMatcher(m));
    assert Count(rest, ByMatcher(Triple(e))) == 0;
    CountAppend(if lifo then [e] else rest, if lifo then rest else [e], ByMatcher(Triple(e)));
    assert Count([e], ByMatcher(Triple(e))) == 1 by {
      assert [e][1..] == [];
    }
  }

  lemma {:induction false} CountAppend(a: seq<Entry>, b: seq<Entry>, f: Filter)
    ensures Count(a + b, f) == Count(a, f) + Count(b, f)
  {
    if a != [] {
      assert (a + b)[1..] == a[1..] + b;
      CountAppend(a[1..], b, f);
    } else {
      assert a + b == b;
    }
  }
}
