/** The calls `updateDomBindings` makes on the hub's DOM node, and what they do to the node's
    listener list. */
module DomBindings {
  import opened ListSeparator
  import opened Registry

  /** An attached DOM listener: the type and the option partition its closure serves. Each
      `addEventListener` attaches a fresh closure, so the node holds a multiset of these. */
  type Attached = (string, Key)

  /** `domNode.addEventListener(type, domListener, { capture, passive })` and
      `domNode.removeEventListener(type, domListener, capture)`; the DOM matches a removal
      against `(type, listener, capture)`, and `passive` takes no part in it. */
  datatype DomCall =
    | AddEventListener(eventType: string, key: Key, capture: bool, passive: bool)
    | RemoveEventListener(eventType: string, key: Key, capture: bool)

  /** The node's listener list after one call. */
  function Apply(dom: multiset<Attached>, c: DomCall): (r: multiset<Attached>)
    ensures c.AddEventListener? ==> r[(c.eventType, c.key)] == dom[(c.eventType, c.key)] + 1
    ensures c.RemoveEventListener? && c.capture == CaptureOption(c.key) ==>
              r[(c.eventType, c.key)] == if dom[(c.eventType, c.key)] == 0 then 0 else dom[(c.eventType, c.key)] - 1
    ensures c.RemoveEventListener? && c.capture != CaptureOption(c.key) ==> r == dom
    ensures forall a :: a != (c.eventType, c.key) ==> r[a] == dom[a]
  {
    match c
    case AddEventListener(t, k, _, _) => dom + multiset{(t, k)}
    case RemoveEventListener(t, k, capture) =>
      if capture == CaptureOption(k) then dom - multiset{(t, k)} else dom
  }

  /** The node's listener list after a sequence of calls. */
  function ApplyAll(dom: multiset<Attached>, cs: seq<DomCall>): multiset<Attached>
    decreases |cs|
  {
    if cs == [] then dom else ApplyAll(Apply(dom, cs[0]), cs[1..])
  }

  /** The attaching call for a partition, with its options read from the key's name. */
  function AddCall(t: string, k: Key): DomCall {
    AddEventListener(t, k, CaptureOption(k), PassiveOption(k))
  }

  /** The detaching call of src/index.js:241 as written: no options, so `capture` is false. */
  function RemoveCallAsWritten(t: string, k: Key): DomCall {
    RemoveEventListener(t, k, false)
  }

  /** The detaching call as intended: with the `capture` option the closure was added with. */
  function RemoveCall(t: string, k: Key): DomCall {
    RemoveEventListener(t, k, CaptureOption(k))
  }

  /** The call `updateDomBindings` makes for one key: none when the key's DOM listener
      already agrees with its partition, an add when the partition has handlers, a remove
      otherwise. */
  function SyncCall(t: string, have: set<Key>, hs: seq<Entry>, k: Key, asWritten: bool): seq<DomCall> {
    if (k in have) == (Bucket(hs, k) != []) then []
    else if Bucket(hs, k) != [] then [AddCall(t, k)]
    else if asWritten then [RemoveCallAsWritten(t, k)]
    else [RemoveCall(t, k)]
  }

  /** The calls of `updateDomBindings` over `keys`, in order. */
  function SyncCalls(t: string, have: set<Key>, hs: seq<Entry>, keys: seq<Key>, asWritten: bool): seq<DomCall> {
    if keys == [] then []
    else
      var n := |keys| - 1;
      SyncCalls(t, have, hs, keys[..n], asWritten) + SyncCall(t, have, hs, keys[n], asWritten)
  }

  /** The keys `domListeners[type]` records after `updateDomBindings` has passed over `keys`:
      each key passed is set exactly when its partition has handlers. */
  function Resynced(have: set<Key>, hs: seq<Entry>, keys: seq<Key>): set<Key> {
    if keys == [] then have
    else
      var n := |keys| - 1;
      var s := Resynced(have, hs, keys[..n]);
      if Bucket(hs, keys[n]) != [] then s + {keys[n]} else s - {keys[n]}
  }

  /** One more key passed over. */
  lemma ResyncedStep(have: set<Key>, hs: seq<Entry>, keys: seq<Key>, i: nat)
    requires i < |keys|
    ensures Resynced(have, hs, keys[..i + 1])
         == if Bucket(hs, keys[i]) != [] then Resynced(have, hs, keys[..i]) + {keys[i]}
            else Resynced(have, hs, keys[..i]) - {keys[i]}
  {
    assert keys[..i + 1][..i] == keys[..i];
  }

  /** A key passed over is set exactly when its partition is non-empty; any other key keeps
      the state it had. */
  lemma {:induction false} ResyncedMembers(have: set<Key>, hs: seq<Entry>, keys: seq<Key>)
    ensures forall k :: k in Resynced(have, hs, keys) <==> if k in keys then Bucket(hs, k) != [] else k in have
  {
    if keys != [] {
      var n := |keys| - 1;
      ResyncedMembers(have, hs, keys[..n]);
      assert forall k :: k in keys <==> k in keys[..n] || k == keys[n] by {
        assert keys == keys[..n] + [keys[n]];
      }
    }
  }

  /** After all of `OPTION_KEYS` the recorded keys are the partitions that have handlers. */
  lemma ResyncedAll(have: set<Key>, hs: seq<Entry>)
    ensures Resynced(have, hs, OptionKeys) == Needed(hs)
    ensures Resynced(have, hs, OptionKeys[..|OptionKeys|]) == Needed(hs)
  {
    assert OptionKeys[..|OptionKeys|] == OptionKeys;
    ResyncedMembers(have, hs, OptionKeys);
    forall k: Key ensures k in OptionKeys {
      var i := match k case PassiveCapture => 0 case Capture => 1 case Passive => 2 case Normal => 3;
      assert OptionKeys[i] == k;
    }
  }

  /** The partitions the hub records as bound, as pairs. */
  function BoundPairs(domListeners: map<string, set<Key>>): set<Attached> {
    set t, k | t in domListeners && k in domListeners[t] :: (t, k)
  }

  /** One more key's calls. */
  lemma SyncCallsStep(t: string, have: set<Key>, hs: seq<Entry>, keys: seq<Key>, i: nat, asWritten: bool)
    requires i < |keys|
    ensures SyncCalls(t, have, hs, keys[..i + 1], asWritten)
         == SyncCalls(t, have, hs, keys[..i], asWritten) + SyncCall(t, have, hs, keys[i], asWritten)
  {
    assert keys[..i + 1][..i] == keys[..i];
  }

  /** The key at position `i` of a list of distinct keys, seen from the pass over the keys
      before it: its recorded state is still the one it started with, and passing over it
      records it by its partition and adds its call. */
  lemma SyncStep(t: string, have: set<Key>, hs: seq<Entry>, keys: seq<Key>, i: nat, asWritten: bool)
    requires i < |keys| && Distinct(keys)
    ensures var cur, k := Resynced(have, hs, keys[..i]), keys[i];
            && ((k in cur) <==> (k in have))
            && Resynced(have, hs, keys[..i + 1]) == (if Bucket(hs, k) != [] then cur + {k} else cur - {k})
            && SyncCalls(t, have, hs, keys[..i + 1], asWritten)
               == SyncCalls(t, have, hs, keys[..i], asWritten) + SyncCall(t, have, hs, k, asWritten)
  {
    ResyncedMembers(have, hs, keys[..i]);
    assert keys[i] !in keys[..i] by {
      forall j | 0 <= j < i ensures keys[..i][j] != keys[i] {
        assert keys[..i][j] == keys[j];
      }
    }
    ResyncedStep(have, hs, keys, i);
    SyncCallsStep(t, have, hs, keys, i, asWritten);
  }

  /** Recording a type twice keeps the second. */
  lemma Rerecord(dl: map<string, set<Key>>, t: string, a: set<Key>, b: set<Key>)
    ensures dl[t := a][t := b] == dl[t := b]
  {
  }

  /** The node holds exactly one closure for each partition the hub records as bound. */
  predicate AttachedAgrees(dom: multiset<Attached>, domListeners: map<string, set<Key>>) {
    dom == multiset(BoundPairs(domListeners))
  }

  /** One attach of a partition that had no DOM listener, or one detach (with the right
      `capture` option) of a partition that had one, keeps the node in agreement with the
      keys the hub records. */
  lemma SyncKeepsAgreement(dom: multiset<Attached>, dl: map<string, set<Key>>, t: string, k: Key, add: bool)
    requires AttachedAgrees(dom, dl) && t in dl && (k in dl[t]) != add
    ensures AttachedAgrees(Apply(dom, if add then AddCall(t, k) else RemoveCall(t, k)),
                           dl[t := if add then dl[t] + {k} else dl[t] - {k}])
  {
    var dl' := dl[t := if add then dl[t] + {k} else dl[t] - {k}];
    if add {
      BoundPairsAdd(dl, t, k);
      MultisetOfAdded(BoundPairs(dl), (t, k));
    } else {
      BoundPairsAdd(dl', t, k);
      assert dl'[t := dl'[t] + {k}] == dl by {
        assert dl'[t] + {k} == dl[t];
      }
      MultisetOfAdded(BoundPairs(dl'), (t, k));
    }
  }

  /** Recording one more partition of a type binds exactly that pair more. */
  lemma BoundPairsAdd(dl: map<string, set<Key>>, t: string, k: Key)
    requires t in dl && k !in dl[t]
    ensures (t, k) !in BoundPairs(dl)
    ensures BoundPairs(dl[t := dl[t] + {k}]) == BoundPairs(dl) + {(t, k)}
  {
    var dl' := dl[t := dl[t] + {k}];
    forall p ensures p in BoundPairs(dl') <==> p in BoundPairs(dl) || p == (t, k) {
      BoundPairsMember(dl, p);
      BoundPairsMember(dl', p);
    }
    BoundPairsMember(dl, (t, k));
  }

  /** The multiset of a set with one new element. */
  lemma MultisetOfAdded(a: set<Attached>, x: Attached)
    requires x !in a
    ensures multiset(a + {x}) == multiset(a) + multiset{x}
  {
  }

  /** Recording a type with no bound partition binds nothing. */
  lemma BoundPairsOfNewType(dl: map<string, set<Key>>, t: string)
    requires t !in dl
    ensures BoundPairs(dl[t := {}]) == BoundPairs(dl)
  {
    forall p ensures p in BoundPairs(dl[t := {}]) <==> p in BoundPairs(dl) {
      BoundPairsMember(dl, p);
      BoundPairsMember(dl[t := {}], p);
    }
  }

  lemma BoundPairsMember(dl: map<string, set<Key>>, p: Attached)
    ensures p in BoundPairs(dl) <==> p.0 in dl && p.1 in dl[p.0]
  {
    if p.0 in dl && p.1 in dl[p.0] {
      assert p == (p.0, p.1);
    }
  }

  /** Applying calls one list after another. */
  lemma {:induction false} ApplyAllAppend(dom: multiset<Attached>, a: seq<DomCall>, b: seq<DomCall>)
    ensures ApplyAll(dom, a + b) == ApplyAll(ApplyAll(dom, a), b)
    decreases |a|
  {
    if a != [] {
      assert (a + b)[1..] == a[1..] + b;
      ApplyAllAppend(Apply(dom, a[0]), a[1..], b);
    } else {
      assert a + b == b;
    }
  }

  /** The call for one key, whose recorded state is still the one it had at the start,
      keeps the node in agreement. */
  lemma SyncCallKeepsAgreement(dom: multiset<Attached>, dl: map<string, set<Key>>, t: string,
                               have: set<Key>, hs: seq<Entry>, k: Key)
    requires t in dl && AttachedAgrees(dom, dl) && (k in dl[t]) == (k in have)
    ensures AttachedAgrees(ApplyAll(dom, SyncCall(t, have, hs, k, false)),
                           dl[t := if Bucket(hs, k) != [] then dl[t] + {k} else dl[t] - {k}])
  {
    var c := SyncCall(t, have, hs, k, false);
    if c == [] {
      if Bucket(hs, k) != [] {
        assert dl[t] + {k} == dl[t];
      } else {
        assert dl[t] - {k} == dl[t];
      }
      assert dl[t := dl[t]] == dl;
    } else {
      SyncKeepsAgreement(dom, dl, t, k, Bucket(hs, k) != []);
      assert c[1..] == [];
    }
  }

  /** The calls made for a list of distinct keys leave a node that agreed with the recorded
      keys in agreement with the keys recorded after them. */
  lemma {:induction false} SyncCallsKeepAgreement(dom: multiset<Attached>, dl: map<string, set<Key>>,
                                                  t: string, hs: seq<Entry>, keys: seq<Key>)
    requires Distinct(keys) && t in dl && AttachedAgrees(dom, dl)
    ensures AttachedAgrees(ApplyAll(dom, SyncCalls(t, dl[t], hs, keys, false)),
                           dl[t := Resynced(dl[t], hs, keys)])
  {
    if keys == [] {
      assert dl[t := dl[t]] == dl;
    } else {
      var prefix := keys[..|keys| - 1];
      assert Distinct(prefix);
      SyncCallsKeepAgreement(dom, dl, t, hs, prefix);
      SyncCallsKeepAgreementStep(dom, dl, t, hs, keys);
    }
  }

  /** The last key of a pass keeps the agreement the earlier keys left. */
  lemma SyncCallsKeepAgreementStep(dom: multiset<Attached>, dl: map<string, set<Key>>,
                                   t: string, hs: seq<Entry>, keys: seq<Key>)
    requires keys != [] && Distinct(keys) && t in dl
    requires AttachedAgrees(ApplyAll(dom, SyncCalls(t, dl[t], hs, keys[..|keys| - 1], false)),
                            dl[t := Resynced(dl[t], hs, keys[..|keys| - 1])])
    ensures AttachedAgrees(ApplyAll(dom, SyncCalls(t, dl[t], hs, keys, false)),
                           dl[t := Resynced(dl[t], hs, keys)])
  {
    var have := dl[t];
    var m := |keys| - 1;
    var k := keys[m];
    var prefix := keys[..m];
    var before := ApplyAll(dom, SyncCalls(t, have, hs, prefix, false));
    var dlm := dl[t := Resynced(have, hs, prefix)];
    assert (k in dlm[t]) == (k in have) by {
      ResyncedMembers(have, hs, prefix);
      assert k !in prefix;
    }
    SyncCallKeepsAgreement(before, dlm, t, have, hs, k);
    SyncCallsLast(dom, dl, t, hs, keys);
  }

  /** The last key of a pass, split off: its calls applied after the others', and its
      update made after the others'. */
  lemma SyncCallsLast(dom: multiset<Attached>, dl: map<string, set<Key>>, t: string, hs: seq<Entry>, keys: seq<Key>)
    requires keys != [] && t in dl
    ensures var prefix, k := keys[..|keys| - 1], keys[|keys| - 1];
            ApplyAll(dom, SyncCalls(t, dl[t], hs, keys, false))
            == ApplyAll(ApplyAll(dom, SyncCalls(t, dl[t], hs, prefix, false)), SyncCall(t, dl[t], hs, k, false))
    ensures var prefix, k := keys[..|keys| - 1], keys[|keys| - 1];
            var dlm := dl[t := Resynced(dl[t], hs, prefix)];
            dl[t := Resynced(dl[t], hs, keys)]
            == dlm[t := if Bucket(hs, k) != [] then dlm[t] + {k} else dlm[t] - {k}]
  {
    var prefix, k := keys[..|keys| - 1], keys[|keys| - 1];
    ApplyAllAppend(dom, SyncCalls(t, dl[t], hs, prefix, false), SyncCall(t, dl[t], hs, k, false));
  }

  /** What `updateDomBindings` does to the DOM node when its detach passes the `capture`
      option the closure was added with (the intended form of src/index.js:241): a node
      that held one closure per recorded key holds one per recorded key afterwards, for the
      keys it records then: the partitions of the type that have handlers. */
  lemma UpdateKeepsAgreement(dom: multiset<Attached>, dl: map<string, set<Key>>, t: string, hs: seq<Entry>)
    requires AttachedAgrees(dom, dl)
    ensures AttachedAgrees(ApplyAll(dom, SyncCalls(t, if t in dl then dl[t] else {}, hs, OptionKeys, false)),
                           dl[t := Needed(hs)])
  {
    var dl' := if t in dl then dl else dl[t := {}];
    if t !in dl {
      BoundPairsOfNewType(dl, t);
    }
    OptionKeysAreDistinct();
    SyncCallsKeepAgreement(dom, dl', t, hs, OptionKeys);
    ResyncedAll(dl'[t], hs);
    assert dl'[t := Needed(hs)] == dl[t := Needed(hs)];
  }

  /** The calls are exactly the difference between the partitions bound before and the
      partitions that have handlers: an add for each one that gained its first handler, a
      remove for each one that lost its last, and nothing for keys that already agree. */
  lemma {:induction false} SyncCallsAreTheDifference(t: string, have: set<Key>, hs: seq<Entry>, keys: seq<Key>)
    ensures forall k :: (AddCall(t, k) in SyncCalls(t, have, hs, keys, false)
                         <==> k in keys && Bucket(hs, k) != [] && k !in have)
    ensures forall k :: (RemoveCall(t, k) in SyncCalls(t, have, hs, keys, false)
                         <==> k in keys && Bucket(hs, k) == [] && k in have)
    ensures forall c :: c in SyncCalls(t, have, hs, keys, false) ==>
              c.eventType == t && c.key in keys && ((c.key in have) != (Bucket(hs, c.key) != []))
  {
    if keys != [] {
      var n := |keys| - 1;
      SyncCallsAreTheDifference(t, have, hs, keys[..n]);
      assert keys == keys[..n] + [keys[n]];
      assert forall k :: k in keys <==> k in keys[..n] || k == keys[n];
    }
  }

  /** A capture partition that loses its last handler: the one case where the detach of
      src/index.js:241 as written differs from the intended one. */
  predicate CaptureEmptied(have: set<Key>, hs: seq<Entry>, k: Key) {
    k in have && Bucket(hs, k) == [] && CaptureOption(k)
  }

  /** The calls as written and as intended differ exactly for a capture partition that loses
      its last handler; over a pass with no such key they are the same calls. */
  lemma {:induction false} AsWrittenDiffersOnCapture(t: string, have: set<Key>, hs: seq<Entry>, keys: seq<Key>)
    ensures forall k :: SyncCall(t, have, hs, k, true) != SyncCall(t, have, hs, k, false)
                        <==> CaptureEmptied(have, hs, k)
    ensures (forall k <- keys :: !CaptureEmptied(have, hs, k)) ==>
              SyncCalls(t, have, hs, keys, true) == SyncCalls(t, have, hs, keys, false)
  {
    if keys != [] {
      var n := |keys| - 1;
      AsWrittenDiffersOnCapture(t, have, hs, keys[..n]);
      assert keys[n] in keys;
      assert forall k <- keys[..n] :: k in keys;
    }
  }

  /** What `updateDomBindings` as written does to the DOM node: the agreement of
      `UpdateKeepsAgreement` holds for its calls whenever no capture partition of the type
      loses its last handler. */
  lemma UpdateKeepsAgreementAsWritten(dom: multiset<Attached>, dl: map<string, set<Key>>, t: string, hs: seq<Entry>)
    requires AttachedAgrees(dom, dl)
    requires t in dl ==> forall k :: !CaptureEmptied(dl[t], hs, k)
    ensures AttachedAgrees(ApplyAll(dom, SyncCalls(t, if t in dl then dl[t] else {}, hs, OptionKeys, true)),
                           dl[t := Needed(hs)])
  {
    AsWrittenDiffersOnCapture(t, if t in dl then dl[t] else {}, hs, OptionKeys);
    UpdateKeepsAgreement(dom, dl, t, hs);
  }

  /** Bind a capture handler to `t`, unbind it, bind it again. */
  function Rebind(t: string, e: Entry, asWritten: bool): multiset<Attached> {
    var afterBind := ApplyAll(multiset{}, SyncCalls(t, {}, [e], OptionKeys, asWritten));
    var afterUnbind := ApplyAll(afterBind, SyncCalls(t, {Capture}, [], OptionKeys, asWritten));
    ApplyAll(afterUnbind, SyncCalls(t, {}, [e], OptionKeys, asWritten))
  }

  /** As written, a capture DOM listener is never detached: after bind, unbind and bind the
      node holds two capture closures for the type, so each event reaches the handler twice. */
  lemma RebindCaptureAsWritten(t: string, e: Entry)
    requires e.capture && !e.passive
    ensures Rebind(t, e, true)[(t, Capture)] == 2
  {
    RebindCalls(t, e, true);
    KeyOptionsAgree(true, false, Capture);
    var c := [AddCall(t, Capture)];
    assert ApplyAll(multiset{}, c) == multiset{(t, Capture)} by {
      assert c[1..] == [];
    }
    var r := [RemoveCallAsWritten(t, Capture)];
    assert ApplyAll(multiset{(t, Capture)}, r) == multiset{(t, Capture)} by {
      assert r[1..] == [];
    }
    assert ApplyAll(multiset{(t, Capture)}, c) == multiset{(t, Capture), (t, Capture)} by {
      assert c[1..] == [];
    }
  }

  /** With the `capture` option passed on removal the node holds one closure again. */
  lemma RebindCapture(t: string, e: Entry)
    requires e.capture && !e.passive
    ensures Rebind(t, e, false)[(t, Capture)] == 1
  {
    RebindCalls(t, e, false);
    var c := [AddCall(t, Capture)];
    assert ApplyAll(multiset{}, c) == multiset{(t, Capture)} by {
      assert c[1..] == [];
    }
    var r := [RemoveCall(t, Capture)];
    assert ApplyAll(multiset{(t, Capture)}, r) == multiset{} by {
      assert r[1..] == [];
    }
    assert ApplyAll(multiset{}, c) == multiset{(t, Capture)};
  }

  /** The calls over `OPTION_KEYS`, one key after the other. */
  lemma SyncCallsInKeyOrder(t: string, have: set<Key>, hs: seq<Entry>, asWritten: bool)
    ensures SyncCalls(t, have, hs, OptionKeys, asWritten)
         == SyncCall(t, have, hs, PassiveCapture, asWritten) + SyncCall(t, have, hs, Capture, asWritten)
          + SyncCall(t, have, hs, Passive, asWritten) + SyncCall(t, have, hs, Normal, asWritten)
  {
    var ks := OptionKeys;
    var pc, c, p, n := SyncCall(t, have, hs, PassiveCapture, asWritten), SyncCall(t, have, hs, Capture, asWritten),
                       SyncCall(t, have, hs, Passive, asWritten), SyncCall(t, have, hs, Normal, asWritten);
    assert ks[..1][..0] == [];
    assert SyncCalls(t, have, hs, ks[..1], asWritten) == pc by {
      assert [] + pc == pc;
    }
    assert ks[..2][..1] == ks[..1];
    assert SyncCalls(t, have, hs, ks[..2], asWritten) == pc + c;
    assert ks[..3][..2] == ks[..2];
    assert SyncCalls(t, have, hs, ks[..3], asWritten) == pc + c + p;
    assert ks[..3] == ks[..|ks| - 1];
  }

  /** The calls of the three steps of `Rebind`. */
  lemma RebindCalls(t: string, e: Entry, asWritten: bool)
    requires e.capture && !e.passive
    ensures SyncCalls(t, {}, [e], OptionKeys, asWritten) == [AddCall(t, Capture)]
    ensures SyncCalls(t, {Capture}, [], OptionKeys, asWritten)
         == [if asWritten then RemoveCallAsWritten(t, Capture) else RemoveCall(t, Capture)]
  {
    assert [e][..0] == [];
    forall k ensures Bucket([e], k) == (if k == Capture then [e.wrapped] else []) && Bucket([], k) == [] {
    }
    SyncCallsInKeyOrder(t, {}, [e], asWritten);
    SyncCallsInKeyOrder(t, {Capture}, [], asWritten);
  }
}
