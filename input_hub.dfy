/** The `InputHub` class of src/index.js: the fulfilment of events, the listener registry
    behind `on`, `once` and `off`, and the DOM listeners that serve it.

    Proof layout: each loop body of the hub is a method of its own (`SyncKey`, `BindNext`,
    `Fire`) whose ghost parameters name the state the loop started from, so that its
    contract can relate the state after one more pass to that start. Identities on maps,
    sets and multisets that the solver is slow to find on its own inside those methods
    (`Rerecord`, `Overwrite`, `PushRef`, `MultisetOfAdded`, `AfterOnParts`) are stated as
    lemmas of their own. Both keep every proof small. */
module InputHub {
  import opened Wrappers
  import opened Dom
  import opened ListSeparator
  import opened Registry
  import opened Fulfilment
  import opened DomBindings
  import opened HubState
  import TypeArray
  import ReactHandlerExists

  /** The hub's options that the core reads. */
  datatype HubOptions = HubOptions(typeSeparator: set<char>, supportReact: bool,
                                   passiveTypes: seq<string>, lifo: bool)

  /** The defaults of the constructor: split on `' '` and `'/'`, support React, the passive
      types `touchstart`, `touchmove` and `scroll`, last in first out. */
  const DefaultOptions := HubOptions({' ', '/'}, true, ["touchstart", "touchmove", "scroll"], true)

  const NotAFunction := "Variable expected to be of type function"
  const NotAnObject := "Variable expected to be of type object"
  const NotAString := "Variable expected to be of type string"
  const NoTypes := "Got no type(s) to bind listener to"

  /** A property read on `null`, as V8 words it. */
  function NullRead(property: string): string {
    "Cannot read properties of null (reading '" + property + "')"
  }

  /** Whether a React handler is expected below the event's current target. */
  ghost predicate Marked(e: EventObject) {
    ReactHandlerExists.MarkedBelow(e.path, e.currentTarget, e.eventType)
  }

  /** The options object the registry methods read: `{}` when none was passed, and no
      option at all when a primitive was (its properties are all `undefined`). */
  function OptionsOf(arg: OptionsArg): BindOptions {
    if arg.Object? then arg.o else NoOptions
  }

  /** `{ ...options, once: true }`: spreading `undefined`, `null` or a primitive gives `{}`. */
  function WithOnce(arg: OptionsArg): (r: OptionsArg)
    ensures r.Object? && r.o.once == Some(true)
    ensures arg.Object? ==> r.o.(once := arg.o.once) == arg.o
  {
    Object(OptionsOf(arg).(once := Some(true)))
  }

  /** The error `off` throws, if any: a listener that is not a function, `null` options
      (whose `passive` it reads) and a type string that is not a string, checked in this
      order. */
  function OffError(typestring: TypeArray.TypeString, listener: ListenerArg, optionsArg: OptionsArg): Option<Thrown> {
    if listener.NonFunction? then Some(TypeError(NotAFunction))
    else if optionsArg.Null? then Some(TypeError(NullRead("passive")))
    else if typestring.NonString? then Some(TypeError(NotAString))
    else None
  }

  /** `off`'s `isMatch`, for the listener and options passed. */
  function MatcherOf(f: FnId, o: BindOptions): Matcher {
    Matcher(f, o.passive, o.capture)
  }

  /** The lifo setting of an `on` call: the call's `lifo` option, read only when its `life`
      option is set, else the hub's. */
  function LifoOf(hubLifo: bool, o: BindOptions): bool {
    if o.life.Some? then o.lifo == Some(true) else hubLifo
  }

  /** The registry after a successful `on` call with the types `types`: the listener first
      cleared by `off`, then one new data object per type placed in its list, with the
      call's closures bound and pushed onto its `unbindListeners`. */
  function AfterOn(opts: HubOptions, s: Registrations, types: seq<string>, f: FnId, o: BindOptions): Registrations {
    var g := s.calls;
    Registrations(BindAll(OffAll(s.listeners, types, MatcherOf(f, o)), types, ProtoOf(f, o), g,
                          LifoOf(opts.lifo, o), opts.passiveTypes),
                  s.bound + Elements(RefsOf(types, g)),
                  s.unbinders[g := RefsOf(types, g)],
                  g + 1)
  }

  /** `AfterOn` in the order `on` works: first `off`, then the type loop. */
  lemma AfterOnParts(opts: HubOptions, s: Registrations, types: seq<string>, f: FnId, o: BindOptions,
                     cleaned: map<string, seq<Entry>>, after: Registrations)
    requires cleaned == OffAll(s.listeners, types, MatcherOf(f, o))
    requires after.listeners == BindAll(cleaned, types, ProtoOf(f, o), s.calls, LifoOf(opts.lifo, o), opts.passiveTypes)
    requires after.bound == s.bound + Elements(RefsOf(types, s.calls))
    requires after.unbinders == s.unbinders[s.calls := RefsOf(types, s.calls)]
    requires after.calls == s.calls + 1
    ensures after == AfterOn(opts, s, types, f, o)
  {
  }

  /** What `on` knows of the data objects it makes before looking at a type. */
  function ProtoOf(f: FnId, o: BindOptions): Proto {
    Proto(f, o.once == Some(true), o.capture == Some(true), o.passive)
  }

  /** `off` after its guard clauses, on the listener's matcher: a reverse traversal of a
      copy of the handler list that splices away every match. The list passed in is a value:
      the hub's own list is replaced by the result, never changed in place. */
  method SpliceMatching(hs: seq<Entry>, m: Matcher) returns (rest: seq<Entry>, changed: bool)
    ensures rest == Without(hs, ByMatcher(m))
    ensures changed <==> exists e :: e in hs && Hit(ByMatcher(m), e)
  {
    rest := hs;
    changed := false;
    var i := |hs|;
    assert hs[|hs|..] == [];
    while i > 0
      invariant 0 <= i <= |hs|
      invariant rest == hs[..i] + Without(hs[i..], ByMatcher(m))
      invariant changed <==> |rest| < |hs|
    {
      i := i - 1;
      WithoutFrom(hs, i, ByMatcher(m));
      assert hs[..i + 1] == hs[..i] + [hs[i]];
      assert rest[..i] == hs[..i] && rest[i] == hs[i];
      if Hit(ByMatcher(m), rest[i]) {
        changed := true;
        rest := rest[..i] + rest[i + 1..];
      }
    }
    assert hs[0..] == hs;
    WithoutUnchanged(hs, ByMatcher(m));
  }

  /** After a successful `on`, a type its type string names once holds exactly one data
      object with the call's listener, `capture` and `passive`: the new one, in front of
      what `off` left under lifo and behind it otherwise. Its `passive` is the option when
      given and membership of the type in `passiveTypes` otherwise, and it is wrapped to
      unbind the whole call exactly when `once` is set. */
  lemma OnBindsOnce(opts: HubOptions, s: Registrations, types: seq<string>, f: FnId, o: BindOptions, i: nat)
    requires i < |types| && forall a, b :: 0 <= a < b < |types| ==> types[a] != types[b]
    ensures var e := NewEntry(ProtoOf(f, o), types[i], s.calls, i, opts.passiveTypes);
            var hs := Get(AfterOn(opts, s, types, f, o).listeners, types[i]);
            && hs == Place(Without(Get(s.listeners, types[i]), ByMatcher(MatcherOf(f, o))), e, LifoOf(opts.lifo, o))
            && Count(hs, ByMatcher(Triple(e))) == 1
            && e.listener == f && e.wrapped.listener == f && e.uid.group == s.calls
            && e.capture == (o.capture == Some(true)) && e.once == (o.once == Some(true))
            && e.passive == (if o.passive.Some? then o.passive.value else types[i] in opts.passiveTypes)
            && (e.wrapped.OnceWrapper? <==> o.once == Some(true))
            && (e.wrapped.OnceWrapper? ==> e.wrapped.group == s.calls)
  {
    var m, p, lifo := MatcherOf(f, o), ProtoOf(f, o), LifoOf(opts.lifo, o);
    var e := NewEntry(p, types[i], s.calls, i, opts.passiveTypes);
    BindAllDistinct(OffAll(s.listeners, types, m), types, p, s.calls, lifo, opts.passiveTypes, i);
    assert types[i] in types;
    OffAllRemovesMatches(s.listeners, types, m, types[i]);
    assert m.capture.None? || m.capture == Some(e.capture) by {
      if o.capture.Some? {
        assert e.capture == o.capture.value;
      }
    }
    OneBindingPerType(Get(s.listeners, types[i]), m, e, lifo);
  }

  /** No listed data object belongs to the call `on` is about to make, even after `off`. */
  lemma CallAbsentAfterOff(s: Registrations, types: seq<string>, m: Matcher, t: string, h: Entry)
    requires Registered(s) && h in Get(OffAll(s.listeners, types, m), t)
    ensures h.uid.group != s.calls
  {
    OpenGroupKeepsRegistered(s);
    OffAllMembers(s.listeners, types, m, t, h);
  }

  /** The `unbindAll` an `on` call returns undoes its type loop: with the call's data objects
      taken out, every list is as `off` left it. */
  lemma OnThenUnbindAll(opts: HubOptions, s: Registrations, types: seq<string>, f: FnId, o: BindOptions, t: string)
    requires Registered(s)
    ensures Without(Get(AfterOn(opts, s, types, f, o).listeners, t), ByGroups({s.calls}))
         == Get(OffAll(s.listeners, types, MatcherOf(f, o)), t)
  {
    var cleaned := OffAll(s.listeners, types, MatcherOf(f, o));
    forall h | h in Get(cleaned, t) ensures h.uid.group != s.calls {
      CallAbsentAfterOff(s, types, MatcherOf(f, o), t, h);
    }
    BindAllRoundTrip(cleaned, types, ProtoOf(f, o), s.calls, LifoOf(opts.lifo, o), opts.passiveTypes, t);
  }

  /** Every data object a `once` call makes is a once-wrapper of that call, so the first of
      them to fire runs the call's `unbindAll`. */
  lemma OnceWrapsAll(opts: HubOptions, s: Registrations, types: seq<string>, f: FnId, arg: OptionsArg,
                     t: string, h: Entry)
    requires Registered(s)
    requires h in Get(AfterOn(opts, s, types, f, OptionsOf(WithOnce(arg))).listeners, t)
    requires h.uid.group == s.calls
    ensures h.once && h.wrapped == OnceWrapper(f, s.calls)
  {
    var o := OptionsOf(WithOnce(arg));
    var cleaned := OffAll(s.listeners, types, MatcherOf(f, o));
    BindAllMembers(cleaned, types, ProtoOf(f, o), s.calls, LifoOf(opts.lifo, o), opts.passiveTypes, t, h);
    if h in Get(cleaned, t) {
      CallAbsentAfterOff(s, types, MatcherOf(f, o), t, h);
    }
  }

  class Hub {
    const options: HubOptions
    /** `this.last`: the record of the last event fulfilled; `{}` until then. */
    var last: Option<Record>
    /** `this.previous`: the record of the last event fulfilled, per type. */
    var previous: map<string, Record>
    /** `this.listeners[type].handlers` for each type ever bound. */
    var listeners: map<string, seq<Entry>>
    /** The keys whose `this.domListeners[type][key]` is set. */
    var domListeners: map<string, set<Key>>
    /** The `unbind` closures whose `isBound` flag is still set. */
    var bound: set<Ref>
    /** Each `on` call's `unbindListeners`. */
    var unbinders: map<nat, seq<Ref>>
    /** The number of `on` calls that reached their type loop. */
    var calls: nat

    function Regs(): Registrations
      reads this
    {
      Registrations(listeners, bound, unbinders, calls)
    }

    /** The recorded DOM listeners agree with the handler lists: one per non-empty
        partition of each bound type, and none for an empty one. */
    ghost predicate Synced()
      reads this
    {
      listeners.Keys == domListeners.Keys
      && (forall t :: t in domListeners ==> domListeners[t] == Needed(listeners[t]))
    }

    ghost predicate Valid()
      reads this
    {
      Registered(Regs()) && Synced()
    }

    /** `new InputHub(options)`, with the options already merged over the defaults. */
    constructor (options: HubOptions)
      ensures Valid() && this.options == options
      ensures last == None && previous == map[]
      ensures listeners == map[] && domListeners == map[]
      ensures bound == {} && unbinders == map[] && calls == 0
    {
      this.options := options;
      last := None;
      previous := map[];
      listeners := map[];
      domListeners := map[];
      bound := {};
      unbinders := map[];
      calls := 0;
    }

    /** `isFulfilled(event)`: classifies a fresh native event at most once and answers
        whether the event is taken. */
    method IsFulfilled(e: EventObject) returns (r: bool)
      modifies GetNative(e)`fulfilled
      ensures GetNative(e).fulfilled
           == Probed(old(GetNative(e).fulfilled), options.supportReact, e.nativeEvent != null, Marked(e))
      ensures r == Answer(old(GetNative(e).fulfilled), options.supportReact, e.nativeEvent != null, Marked(e))
    {
      var ne := GetNative(e);
      if options.supportReact {
        if e.nativeEvent != null {
          return if ne.fulfilled == AwaitReact then false else Truthy(ne.fulfilled);
        }
        if ne.fulfilled == Unset {
          var expected := ReactHandlerExists.ReactHandlerExists(e);
          ne.fulfilled := if expected then AwaitReact else NotReact;
        }
      }
      return Truthy(ne.fulfilled);
    }

    /** `register(event)`: records the event in `last` and `previous[type]`. */
    method Register(e: EventObject)
      modifies this`last, this`previous
      ensures last == Some(SavedProps(e, GetNative(e)))
      ensures previous == old(previous)[e.eventType := SavedProps(e, GetNative(e))]
    {
      var ne := GetNative(e);
      last := Some(SavedProps(e, ne));
      previous := previous[e.eventType := last.value];
    }

    /** `fulfill(event)`: claims the native event unless it is already taken, stamps the
        current target and records the event. Returns whether this call claimed it. */
    method Fulfill(e: EventObject) returns (r: bool)
      modifies this`last, this`previous, GetNative(e)`fulfilled, GetNative(e)`fulfilledAt
      ensures r == !Answer(old(GetNative(e).fulfilled), options.supportReact, e.nativeEvent != null, Marked(e))
      ensures r ==> GetNative(e).fulfilled == Claimed && GetNative(e).fulfilledAt == e.currentTarget
                    && last == Some(SavedProps(e, GetNative(e)))
                    && previous == old(previous)[e.eventType := last.value]
                    && last.value.fulfilled == Claimed && last.value.fulfilledAt == e.currentTarget
      ensures !r ==> GetNative(e).fulfilled
                     == Probed(old(GetNative(e).fulfilled), options.supportReact, e.nativeEvent != null, Marked(e))
                     && GetNative(e).fulfilledAt == old(GetNative(e).fulfilledAt)
                     && last == old(last) && previous == old(previous)
    {
      var taken := IsFulfilled(e);
      if taken {
        return false;
      }
      var ne := GetNative(e);
      ne.fulfilled := Claimed;
      ne.fulfilledAt := e.currentTarget;
      Register(e);
      return true;
    }

    /** Claim-at-most-once: of two `fulfill` calls on the same event the second never
        succeeds, and after the first success every listener sees the event as taken. */
    method FulfillTwice(e: EventObject) returns (first: bool, second: bool)
      modifies this`last, this`previous, GetNative(e)`fulfilled, GetNative(e)`fulfilledAt
      ensures !second
      ensures first ==> GetNative(e).fulfilled == Claimed && GetNative(e).fulfilledAt == e.currentTarget
    {
      first := Fulfill(e);
      if first {
        ClaimedIsTerminal(options.supportReact, e.nativeEvent != null, Marked(e));
      }
      second := Fulfill(e);
      if !first {
        ProbeIsIdempotent(old(GetNative(e).fulfilled), options.supportReact, e.nativeEvent != null, Marked(e), Marked(e));
      }
    }

    /** `fulfillGhost(event)`: claims an event nobody has taken when it is a ghost of the
        last recorded event; it neither stamps `fulfilledAt` nor records the event. */
    method FulfillGhost(e: EventObject) returns (r: bool)
      modifies GetNative(e)`fulfilled
      ensures r <==> !Truthy(old(GetNative(e).fulfilled))
                     && (IsGhostMouse(e.eventType, last) || IsGhostTouch(e.eventType, last))
      ensures GetNative(e).fulfilled == if r then Claimed else old(GetNative(e).fulfilled)
      ensures last == None ==> !r
    {
      var ne := GetNative(e);
      if Truthy(ne.fulfilled) {
        return false;
      }
      if IsGhostMouse(e.eventType, last) || IsGhostTouch(e.eventType, last) {
        ne.fulfilled := Claimed;
        return true;
      }
      return false;
    }

    /** `typeArray(typestring)` of the hub: the type guard of `typeAssert`, then the split on
        the hub's separator. */
    function TypesOf(typestring: TypeArray.TypeString): (r: Result<seq<string>, Thrown>)
      ensures r.Failure? <==> typestring.NonString?
      ensures r.Failure? ==> r.error == TypeError(NotAString)
      ensures r.Success? ==> forall t :: t in r.value ==> TypeArray.IsTypeName(t, options.typeSeparator)
    {
      match typestring
      case NonString => Failure(TypeError(NotAString))
      case Str(s) => Success(TypeArray.Split(s, options.typeSeparator))
    }

    /** The callback `updateDomBindings` runs for the key at position `i`: nothing when the
        key's DOM listener agrees with its partition, else an attach or a detach, the detach
        as src/index.js:241 writes it, without the `capture` option. The keys
        before it have been synchronised with `hs` already; `dl` is the record before the
        pass. */
    method SyncKey(t: string, keys: seq<Key>, i: nat, filtered: Partition,
                   ghost have: set<Key>, ghost hs: seq<Entry>, ghost dl: map<string, set<Key>>)
      returns (c: seq<DomCall>)
      requires i < |keys| && Distinct(keys) && filtered == Separated(hs)
      requires domListeners == dl[t := Resynced(have, hs, keys[..i])]
      modifies this`domListeners
      ensures domListeners == dl[t := Resynced(have, hs, keys[..i + 1])]
      ensures c == SyncCall(t, have, hs, keys[i], true)
      ensures SyncCalls(t, have, hs, keys[..i + 1], true) == SyncCalls(t, have, hs, keys[..i], true) + c
    {
      SyncStep(t, have, hs, keys, i, true);
      var key := keys[i];
      var nonEmpty := filtered.Get(key) != [];
      assert nonEmpty == (Bucket(hs, key) != []);
      if (key in domListeners[t]) == nonEmpty {
        ghost var cur := domListeners[t];
        assert (if nonEmpty then cur + {key} else cur - {key}) == cur;
        return [];
      }
      var call;
      if nonEmpty {
        call := AddCall(t, key);
        domListeners := domListeners[t := domListeners[t] + {key}];
      } else {
        call := RemoveCallAsWritten(t, key);
        domListeners := domListeners[t := domListeners[t] - {key}];
      }
      Rerecord(dl, t, Resynced(have, hs, keys[..i]), Resynced(have, hs, keys[..i + 1]));
      c := [call];
    }

    /** `updateDomBindings(type)`: for each option key in order, attaches a DOM listener for
        a partition that gained handlers and detaches the one of a partition that lost them;
        keys that already agree are left alone. Returns the calls made on the DOM node. */
    method UpdateDomBindings(t: string) returns (ops: seq<DomCall>)
      modifies this`domListeners
      ensures t !in listeners ==> ops == [] && domListeners == old(domListeners)
      ensures t in listeners ==>
                domListeners == old(domListeners)[t := Needed(listeners[t])]
                && ops == SyncCalls(t, if t in old(domListeners) then old(domListeners)[t] else {},
                                    listeners[t], OptionKeys, true)
    {
      if t !in listeners {
        return [];
      }
      if t !in domListeners {
        domListeners := domListeners[t := {}];
      }
      var filtered := ListSeparator.ListSeparator(listeners[t]);
      ops := SyncKeys(t, filtered, listeners[t]);
    }

    /** The `OPTION_KEYS.forEach` pass of `updateDomBindings` over the partition `filtered`
        of the list `hs`: each key in order is brought into agreement with its partition. */
    method SyncKeys(t: string, filtered: Partition, ghost hs: seq<Entry>) returns (ops: seq<DomCall>)
      requires t in domListeners
      requires filtered == Separated(hs)
      modifies this`domListeners
      ensures domListeners == old(domListeners)[t := Needed(hs)]
      ensures ops == SyncCalls(t, old(domListeners)[t], hs, OptionKeys, true)
    {
      OptionKeysAreDistinct();
      ops := SyncEach(t, filtered, hs, OptionKeys);
      ResyncedAll(old(domListeners)[t], hs);
    }

    /** The `forEach` loop over distinct keys, in order. */
    method SyncEach(t: string, filtered: Partition, ghost hs: seq<Entry>, keys: seq<Key>) returns (ops: seq<DomCall>)
      requires t in domListeners && Distinct(keys)
      requires filtered == Separated(hs)
      modifies this`domListeners
      ensures domListeners == old(domListeners)[t := Resynced(old(domListeners)[t], hs, keys)]
      ensures ops == SyncCalls(t, old(domListeners)[t], hs, keys, true)
    {
      ghost var dl := domListeners;
      ghost var have := dl[t];
      ops := [];
      assert keys[..0] == [];
      assert domListeners == dl[t := have];
      for i := 0 to |keys|
        invariant domListeners == dl[t := Resynced(have, hs, keys[..i])]
        invariant ops == SyncCalls(t, have, hs, keys[..i], true)
      {
        var c := SyncKey(t, keys, i, filtered, have, hs, dl);
        ops := ops + c;
      }
      assert keys[..|keys|] == keys;
    }

    /** `this.listeners[type].handlers = hs` followed by `this.updateDomBindings(type)`:
        the list is replaced, never changed in place, and the DOM listeners follow it. */
    method Replace(t: string, hs: seq<Entry>) returns (ops: seq<DomCall>)
      requires Synced() && Registered(Regs().(listeners := listeners[t := hs]))
      modifies this`listeners, this`domListeners
      ensures listeners == old(listeners)[t := hs] && Valid()
      ensures domListeners == old(domListeners)[t := Needed(hs)]
      ensures ops == SyncCalls(t, if t in old(domListeners) then old(domListeners)[t] else {}, hs, OptionKeys, true)
    {
      listeners := listeners[t := hs];
      ops := UpdateDomBindings(t);
    }

    /** `off(typestring, listener, options)`: takes every data object the listener and the
        given options match out of the list of each type named, keeping the others in order.
        An omitted `capture` or `passive` option matches either value. */
    method Off(typestring: TypeArray.TypeString, listener: ListenerArg, optionsArg: OptionsArg)
      returns (r: Outcome<Thrown>)
      requires Valid()
      modifies this`listeners, this`domListeners
      ensures Valid()
      ensures r == if OffError(typestring, listener, optionsArg).Some?
                   then Fail(OffError(typestring, listener, optionsArg).value) else Pass
      ensures r.Fail? ==> listeners == old(listeners)
      ensures r.Pass? ==> listeners == OffAll(old(listeners), TypesOf(typestring).value,
                                               MatcherOf(listener.f, OptionsOf(optionsArg)))
    {
      if listener.NonFunction? {
        return Fail(TypeError(NotAFunction));
      }
      if optionsArg.Null? {
        return Fail(TypeError(NullRead("passive")));
      }
      var parsed := TypesOf(typestring);
      if parsed.Failure? {
        return Fail(parsed.error);
      }
      OffTypes(parsed.value, MatcherOf(listener.f, OptionsOf(optionsArg)));
      return Pass;
    }

    /** `off`'s loop over the type list. */
    method OffTypes(types: seq<string>, m: Matcher)
      requires Valid()
      modifies this`listeners, this`domListeners
      ensures Valid() && listeners == OffAll(old(listeners), types, m)
    {
      for i := 0 to |types|
        invariant Valid()
        invariant listeners == OffAll(old(listeners), types[..i], m)
      {
        OffAllStep(old(listeners), types, i, m);
        var ops := OffType(types[i], m);
      }
      assert types[..|types|] == types;
    }

    /** The body of `off`'s type loop: a type never bound is skipped; otherwise the matches
        are spliced from a copy of its list, and only when something was removed is the
        list replaced and the DOM listeners brought up to date. */
    method OffType(t: string, m: Matcher) returns (ops: seq<DomCall>)
      requires Valid()
      modifies this`listeners, this`domListeners
      ensures Valid()
      ensures listeners == if t in old(listeners) then old(listeners)[t := Without(old(listeners)[t], ByMatcher(m))]
                           else old(listeners)
      ensures ops == if t !in old(listeners) || Without(old(listeners)[t], ByMatcher(m)) == old(listeners)[t] then []
                     else SyncCalls(t, old(domListeners)[t], listeners[t], OptionKeys, true)
    {
      if t !in listeners {
        return [];
      }
      var rest, changed := SpliceMatching(listeners[t], m);
      WithoutUnchanged(listeners[t], ByMatcher(m));
      if !changed {
        assert listeners[t := rest] == listeners;
        return [];
      }
      RemoveKeepsRegistered(Regs(), t, ByMatcher(m));
      ops := Replace(t, rest);
    }

    /** An `unbind` closure of the `on` call that bound `r`: the first run clears its
        `isBound` flag and, if its data object is still in the list, replaces the list by a
        copy without it and updates the DOM listeners; later runs do nothing. */
    method Unbind(r: Ref) returns (ops: seq<DomCall>)
      requires Valid() && r.eventType in listeners
      modifies this`listeners, this`domListeners, this`bound
      ensures Valid() && bound == old(bound) - {r}
      ensures listeners == old(listeners)[r.eventType := Without(old(listeners)[r.eventType], ByUids({r.uid}))]
      ensures r !in old(bound) ==> listeners == old(listeners) && ops == []
    {
      var t := r.eventType;
      if r !in bound {
        UnboundTwice(Regs(), r);
        assert listeners[t := listeners[t]] == listeners;
        return [];
      }
      UnboundKeepsRegistered(Regs(), r);
      bound := bound - {r};
      var idx := IndexOf(listeners[t], r.uid);
      if idx == -1 {
        WithoutUnchanged(listeners[t], ByUids({r.uid}));
        assert listeners[t := listeners[t]] == listeners;
        return [];
      }
      SpliceAt(listeners[t], idx);
      ops := Replace(t, listeners[t][..idx] + listeners[t][idx + 1..]);
    }

    /** `unbindAll` of the `on` call `g`: runs each of the call's closures in turn, which
        takes exactly the call's data objects out of every list. */
    method UnbindAll(g: nat)
      requires Valid() && g in unbinders
      modifies this`listeners, this`domListeners, this`bound
      ensures Valid() && GroupsRemoved(old(listeners), listeners, {g})
      ensures bound == old(bound) - Elements(unbinders[g])
    {
      var rs := unbinders[g];
      for i := 0 to |rs|
        invariant Valid()
        invariant listeners == UnbindRefs(old(listeners), rs[..i])
        invariant bound == old(bound) - Elements(rs[..i])
      {
        UnbindRefsStep(old(listeners), rs, i);
        ElementsNext(rs, i);
        var ops := Unbind(rs[i]);
      }
      assert rs[..|rs|] == rs;
      forall t | t in listeners ensures listeners[t] == Without(old(listeners)[t], ByGroups({g})) {
        UnbindAllRemovesGroup(old(Regs()), g, t);
      }
    }

    /** The error `on` throws, if any, in the order it checks: a listener that is not a
        function, options that are not an object, `null` options (whose `once` it reads), a
        type string that is not a string, and a type string with no type in it. */
    function OnError(typestring: TypeArray.TypeString, listener: ListenerArg, optionsArg: OptionsArg): Option<Thrown> {
      if listener.NonFunction? then Some(TypeError(NotAFunction))
      else if optionsArg.Primitive? then Some(TypeError(NotAnObject))
      else if optionsArg.Null? then Some(TypeError(NullRead("once")))
      else if typestring.NonString? then Some(TypeError(NotAString))
      else if TypesOf(typestring).value == [] then Some(Error(NoTypes))
      else None
    }

    /** `on(typestring, listener, options)`: checks its arguments, clears the listener with
        `off`, then binds it to each type. A throw leaves the registry as it was; a success
        returns the call's id, which stands for the `unbindAll` function `on` returns. */
    method On(typestring: TypeArray.TypeString, listener: ListenerArg, optionsArg: OptionsArg)
      returns (r: Result<nat, Thrown>)
      requires Valid()
      modifies this`listeners, this`domListeners, this`bound, this`unbinders, this`calls
      ensures Valid()
      ensures r == if OnError(typestring, listener, optionsArg).Some?
                   then Failure(OnError(typestring, listener, optionsArg).value) else Success(old(calls))
      ensures r.Failure? ==> Regs() == old(Regs())
      ensures r.Success? ==> Regs() == AfterOn(options, old(Regs()), TypesOf(typestring).value,
                                                listener.f, OptionsOf(optionsArg))
    {
      if listener.NonFunction? {
        return Failure(TypeError(NotAFunction));
      }
      if optionsArg.Primitive? {
        return Failure(TypeError(NotAnObject));
      }
      if optionsArg.Null? {
        return Failure(TypeError(NullRead("once")));
      }
      var parsed := TypesOf(typestring);
      if parsed.Failure? {
        return Failure(parsed.error);
      }
      var types := parsed.value;
      if types == [] {
        return Failure(Error(NoTypes));
      }
      var g := BindListener(typestring, listener, optionsArg, types);
      return Success(g);
    }

    /** The part of `on` past its guard clauses: `off`, then the type loop of a new call. */
    method BindListener(typestring: TypeArray.TypeString, listener: ListenerArg, optionsArg: OptionsArg,
                        types: seq<string>) returns (g: nat)
      requires Valid() && OnError(typestring, listener, optionsArg) == None
      requires types == TypesOf(typestring).value
      modifies this`listeners, this`domListeners, this`bound, this`unbinders, this`calls
      ensures Valid() && g == old(calls)
      ensures Regs() == AfterOn(options, old(Regs()), types, listener.f, OptionsOf(optionsArg))
    {
      ghost var s := Regs();
      var o := OptionsOf(optionsArg);
      var cleared := Off(typestring, listener, optionsArg);
      ghost var cleaned := listeners;
      g := BindCall(types, ProtoOf(listener.f, o), LifoOf(options.lifo, o));
      AfterOnParts(options, s, types, listener.f, o, cleaned, Regs());
    }

    /** `on`'s type loop under a new call id. */
    method BindCall(types: seq<string>, p: Proto, lifo: bool) returns (g: nat)
      requires Valid()
      modifies this`listeners, this`domListeners, this`bound, this`unbinders, this`calls
      ensures Valid() && g == old(calls) && calls == g + 1
      ensures listeners == BindAll(old(listeners), types, p, g, lifo, options.passiveTypes)
      ensures unbinders == old(unbinders)[g := RefsOf(types, g)]
      ensures bound == old(bound) + Elements(RefsOf(types, g))
    {
      ghost var us := unbinders;
      g := OpenCall();
      ghost var c := calls;
      BindTypes(types, p, g, lifo);
      assert calls == c;
      assert unbinders == us[g := RefsOf(types, g)] by {
        Overwrite(us, g, [], RefsOf(types, g));
      }
    }

    /** `once(types, listener, options)`: `on` with `once` set in a copy of the options, so
        it never throws for the options. */
    method Once(typestring: TypeArray.TypeString, listener: ListenerArg, optionsArg: OptionsArg)
      returns (r: Result<nat, Thrown>)
      requires Valid()
      modifies this`listeners, this`domListeners, this`bound, this`unbinders, this`calls
      ensures Valid()
      ensures r == if OnError(typestring, listener, WithOnce(optionsArg)).Some?
                   then Failure(OnError(typestring, listener, WithOnce(optionsArg)).value) else Success(old(calls))
      ensures r.Failure? ==> r.error in {TypeError(NotAFunction), TypeError(NotAString), Error(NoTypes)}
      ensures r.Failure? ==> Regs() == old(Regs())
      ensures r.Success? ==> Regs() == AfterOn(options, old(Regs()), TypesOf(typestring).value,
                                                listener.f, OptionsOf(WithOnce(optionsArg)))
    {
      r := On(typestring, listener, WithOnce(optionsArg));
    }

    /** The start of `on`'s type loop: a fresh call id with no closures yet. */
    method OpenCall() returns (g: nat)
      requires Valid()
      modifies this`unbinders, this`calls
      ensures Valid() && g == old(calls) && calls == g + 1 && unbinders == old(unbinders)[g := []]
      ensures GroupAbsent(listeners, g)
    {
      OpenGroupKeepsRegistered(Regs());
      g := calls;
      unbinders := unbinders[g := []];
      calls := calls + 1;
    }

    /** `on`'s loop over the type list of the call `g`. */
    method BindTypes(types: seq<string>, p: Proto, g: nat, lifo: bool)
      requires Valid() && g in unbinders && unbinders[g] == [] && GroupAbsent(listeners, g)
      modifies this`listeners, this`domListeners, this`bound, this`unbinders
      ensures Valid()
      ensures listeners == BindAll(old(listeners), types, p, g, lifo, options.passiveTypes)
      ensures unbinders == old(unbinders)[g := RefsOf(types, g)]
      ensures bound == old(bound) + Elements(RefsOf(types, g))
      ensures calls == old(calls)
    {
      assert types[..0] == [];
      for i := 0 to |types|
        invariant Valid() && g in unbinders
        invariant listeners == BindAll(old(listeners), types[..i], p, g, lifo, options.passiveTypes)
        invariant unbinders == old(unbinders)[g := RefsOf(types[..i], g)]
        invariant bound == old(bound) + Elements(RefsOf(types[..i], g))
      {
        BindNext(types, i, p, g, lifo, old(listeners), old(unbinders), old(bound));
      }
      assert types[..|types|] == types;
    }

    /** The pass of `on`'s type loop at position `i`, stated against the registry `ls`,
        `us`, `b` as the loop found it. */
    method BindNext(types: seq<string>, i: nat, p: Proto, g: nat, lifo: bool,
                    ghost ls: map<string, seq<Entry>>, ghost us: map<nat, seq<Ref>>, ghost b: set<Ref>)
      requires Valid() && i < |types| && GroupAbsent(ls, g)
      requires listeners == BindAll(ls, types[..i], p, g, lifo, options.passiveTypes)
      requires unbinders == us[g := RefsOf(types[..i], g)]
      requires bound == b + Elements(RefsOf(types[..i], g))
      modifies this`listeners, this`domListeners, this`bound, this`unbinders
      ensures Valid()
      ensures listeners == BindAll(ls, types[..i + 1], p, g, lifo, options.passiveTypes)
      ensures unbinders == us[g := RefsOf(types[..i + 1], g)]
      ensures bound == b + Elements(RefsOf(types[..i + 1], g))
    {
      ghost var rs := RefsOf(types[..i], g);
      ghost var r := Ref(types[i], Uid(g, i));
      assert forall u, h :: u in listeners && h in listeners[u] ==> h.uid != Uid(g, i) by {
        BindAllFresh(ls, types[..i], p, g, lifo, options.passiveTypes);
      }
      BindType(types[i], i, p, g, lifo);
      assert listeners == BindAll(ls, types[..i + 1], p, g, lifo, options.passiveTypes) by {
        BindAllNext(ls, types, p, g, lifo, options.passiveTypes, i);
      }
      RefsOfNext(types, g, i);
      PushRef(us, b, g, rs, r);
    }

    /** One pass of `on`'s type loop: makes the data object for the type at position `i`,
        sets its closure bound, pushes the closure, and places the data object in a new
        copy of the type's list. */
    method BindType(t: string, i: nat, p: Proto, g: nat, lifo: bool)
      requires Valid() && g in unbinders
      requires forall u, h :: u in listeners && h in listeners[u] ==> h.uid != Uid(g, i)
      modifies this`listeners, this`domListeners, this`bound, this`unbinders
      ensures Valid()
      ensures listeners == old(listeners)[t := Place(Get(old(listeners), t), NewEntry(p, t, g, i, options.passiveTypes), lifo)]
      ensures bound == old(bound) + {Ref(t, Uid(g, i))}
      ensures unbinders == old(unbinders)[g := old(unbinders)[g] + [Ref(t, Uid(g, i))]]
    {
      var e := NewEntry(p, t, g, i, options.passiveTypes);
      BindOneKeepsRegistered(Regs(), t, e, lifo);
      var r := Ref(t, e.uid);
      bound := bound + {r};
      unbinders := unbinders[g := unbinders[g] + [r]];
      var ops := Replace(t, Place(Get(listeners, t), e, lifo));
    }

    /** The DOM listener of the partition `k` of `t` firing: it calls each handler of the
        partition as it was when it fired, and a once-wrapper runs `unbindAll` of its call
        after its listener. Returns the handlers called. */
    method Dispatch(t: string, k: Key) returns (fired: seq<Wrapped>)
      requires Valid() && t in listeners
      modifies this`listeners, this`domListeners, this`bound
      ensures Valid()
      ensures fired == Bucket(old(listeners)[t], k)
      ensures GroupsRemoved(old(listeners), listeners, OnceGroups(fired))
      ensures bound == old(bound) - OnceRefs(unbinders, fired)
    {
      var filtered := ListSeparator.ListSeparator(listeners[t]);
      fired := filtered.Get(k);
      OnceWrappersOpen(Regs(), t, k);
      FireEach(fired, listeners);
    }

    /** The `forEach` of a DOM listener over the handlers `ws` of its partition, which the
        lists `ls` held when it fired. */
    method FireEach(ws: seq<Wrapped>, ghost ls: map<string, seq<Entry>>)
      requires Valid() && listeners == ls
      requires forall w :: w in ws && w.OnceWrapper? ==> w.group in unbinders
      modifies this`listeners, this`domListeners, this`bound
      ensures Valid()
      ensures GroupsRemoved(ls, listeners, OnceGroups(ws))
      ensures bound == old(bound) - OnceRefs(unbinders, ws)
    {
      GroupsRemovedNone(listeners);
      assert ws[..0] == [];
      for i := 0 to |ws|
        invariant Valid()
        invariant GroupsRemoved(ls, listeners, OnceGroups(ws[..i]))
        invariant bound == old(bound) - OnceRefs(unbinders, ws[..i])
      {
        OnceGroupsNext(ws, i);
        OnceRefsNext(unbinders, ws, i);
        assert ws[i] in ws;
        Fire(ws[i], ls, OnceGroups(ws[..i]));
      }
      assert ws[..|ws|] == ws;
    }

    /** One handler of a partition called by its DOM listener: a once-wrapper runs the
        `unbindAll` of its call after the listener, which takes the call's data objects out
        of every list; a plain listener leaves the lists alone. `ls` and `gs` are the lists
        before the DOM listener fired and the calls already unbound since. */
    method Fire(w: Wrapped, ghost ls: map<string, seq<Entry>>, ghost gs: set<nat>)
      requires Valid() && GroupsRemoved(ls, listeners, gs)
      requires w.OnceWrapper? ==> w.group in unbinders
      modifies this`listeners, this`domListeners, this`bound
      ensures Valid()
      ensures GroupsRemoved(ls, listeners, gs + if w.OnceWrapper? then {w.group} else {})
      ensures bound == old(bound) - if w.OnceWrapper? then Elements(unbinders[w.group]) else {}
    {
      if w.OnceWrapper? {
        ghost var before := listeners;
        UnbindAll(w.group);
        GroupsRemovedTwice(ls, before, listeners, gs, w.group);
      } else {
        assert gs + {} == gs;
      }
    }
  }
}
