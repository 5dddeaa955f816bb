/** The event helpers of `InputHub` and the states of an event's `fulfilled` flag. */
module Fulfilment {
  import opened Wrappers
  import opened Dom

  /** `getNative`: `event.originalEvent || event.nativeEvent || event`, the object that
      carries the flag whichever framework delivered the event. */
  function GetNative(e: EventObject): (n: EventObject)
    ensures n == e || n == e.originalEvent || n == e.nativeEvent
    ensures e.originalEvent != null ==> n == e.originalEvent
    ensures e.originalEvent == null && e.nativeEvent != null ==> n == e.nativeEvent
    ensures e.originalEvent == null && e.nativeEvent == null ==> n == e
  {
    if e.originalEvent != null then e.originalEvent
    else if e.nativeEvent != null then e.nativeEvent
    else e
  }

  /** A jQuery or React event and the native event it wraps lead to the same object, so the
      `fulfilled` flag one listener sets is the flag every other listener reads. */
  lemma WrapperSharesNative(w: EventObject, n: EventObject)
    requires n.originalEvent == null && n.nativeEvent == null
    requires w.originalEvent == n || (w.originalEvent == null && w.nativeEvent == n)
    ensures GetNative(w) == n && GetNative(n) == n
  {
  }

  /** `/^p/.test(s)` */
  predicate StartsWith(s: string, p: string) {
    p <= s
  }

  /** At most one of the device prefixes starts a type: they differ in their first letter. */
  lemma PrefixesAreExclusive(s: string)
    ensures StartsWith(s, "pointer") ==> !StartsWith(s, "mouse") && !StartsWith(s, "touch") && !StartsWith(s, "key")
    ensures StartsWith(s, "mouse") ==> !StartsWith(s, "touch") && !StartsWith(s, "key")
    ensures StartsWith(s, "touch") ==> !StartsWith(s, "key")
  {
    if s != [] {
      assert StartsWith(s, "pointer") ==> s[0] == 'p';
      assert StartsWith(s, "mouse") ==> s[0] == 'm';
      assert StartsWith(s, "touch") ==> s[0] == 't';
      assert StartsWith(s, "key") ==> s[0] == 'k';
    }
  }

  /** `deviceType`, on the event's `type` and `pointerType`: `pointer*` events report their
      `pointerType` (`'mouse'` when it is missing or empty), `mouse*`, `touch*` and `key*`
      events report `'mouse'`, `'touch'` and `'key'`, and any other type reports `null`. */
  function DeviceTypeOf(eventType: string, pointerType: Option<string>): (d: Option<string>)
    ensures d.None? <==> !(StartsWith(eventType, "pointer") || StartsWith(eventType, "mouse")
                           || StartsWith(eventType, "touch") || StartsWith(eventType, "key"))
    ensures StartsWith(eventType, "mouse") ==> d == Some("mouse")
    ensures StartsWith(eventType, "touch") ==> d == Some("touch")
    ensures StartsWith(eventType, "key") ==> d == Some("key")
    ensures StartsWith(eventType, "pointer") ==>
              d.Some? && d.value != "" && (d.value == "mouse" || Some(d.value) == pointerType)
    ensures StartsWith(eventType, "pointer") && pointerType.Some? && pointerType.value != "" ==> d == pointerType
    ensures StartsWith(eventType, "pointer") && (pointerType.None? || pointerType.value == "") ==> d == Some("mouse")
  {
    PrefixesAreExclusive(eventType);
    if StartsWith(eventType, "pointer") then
      (if pointerType.Some? && pointerType.value != "" then pointerType else Some("mouse"))
    else if StartsWith(eventType, "mouse") then Some("mouse")
    else if StartsWith(eventType, "touch") then Some("touch")
    else if StartsWith(eventType, "key") then Some("key")
    else None
  }

  /** `deviceType(event)`, read from the event the hub was handed. Every device it reports
      is truthy, and on a native event a `'touch'` device is also what `isTouchEvent` calls
      a touch event. */
  function DeviceType(e: EventObject): (d: Option<string>)
    ensures d.Some? ==> d.value != ""
    ensures d == Some("touch") && GetNative(e) == e ==> IsTouchEvent(e)
  {
    DeviceTypeOf(e.eventType, e.pointerType)
  }

  /** `typeOppositeMap`. */
  const OppositeTypes: map<string, string> :=
    map["pointerdown" := "pointerup", "pointerup" := "pointerdown",
        "touchstart" := "touchend", "touchend" := "touchstart",
        "mousedown" := "mouseup", "mouseup" := "mousedown"]

  /** `getOppositeType(type)`: the paired down/up type, or `undefined`. */
  function GetOppositeType(t: string): (r: Option<string>)
    ensures r.Some? <==> t in {"pointerdown", "pointerup", "touchstart", "touchend", "mousedown", "mouseup"}
    ensures r.Some? ==> r.value in OppositeTypes && OppositeTypes[r.value] == t
  {
    if t in OppositeTypes then Some(OppositeTypes[t]) else None
  }

  /** Exactly the six paired types have an opposite; the opposite of an opposite is the type
      itself, it is never the type itself, and it comes from the same device. */
  lemma OppositeIsInvolution(t: string, pointerType: Option<string>)
    ensures GetOppositeType(t).Some? <==> t in {"pointerdown", "pointerup", "touchstart", "touchend", "mousedown", "mouseup"}
    ensures GetOppositeType(t).Some? ==>
              GetOppositeType(GetOppositeType(t).value) == Some(t)
              && GetOppositeType(t).value != t
              && DeviceTypeOf(GetOppositeType(t).value, pointerType) == DeviceTypeOf(t, pointerType)
  {
    if t in OppositeTypes {
      assert t in {"pointerdown", "pointerup", "touchstart", "touchend", "mousedown", "mouseup"};
      assert "pointer" <= "pointerdown" && "pointer" <= "pointerup";
      assert "touch" <= "touchstart" && "touch" <= "touchend";
      assert "mouse" <= "mousedown" && "mouse" <= "mouseup";
    }
  }

  /** `isTouchEvent`: a `touch*` type, or a native event whose `pointerType` is `'touch'`. */
  predicate IsTouchEvent(e: EventObject) {
    StartsWith(e.eventType, "touch") || GetNative(e).pointerType == Some("touch")
  }

  /** The flag after `isFulfilled` has looked at it: with React support on, a native event
      that was never looked at is classified once, as awaiting React when a React handler is
      expected below the current target (`marked`) and as `false` otherwise; every other flag
      is left as it is. */
  function Probed(f: Fulfilled, supportReact: bool, synthetic: bool, marked: bool): Fulfilled {
    if supportReact && !synthetic && f == Unset then (if marked then AwaitReact else NotReact)
    else f
  }

  /** What `isFulfilled` answers for a flag `f`: a React synthetic event sees only a real
      claim (an event parked for React is open to React), everything else sees the
      truthiness of the probed flag. */
  predicate Answer(f: Fulfilled, supportReact: bool, synthetic: bool, marked: bool) {
    if supportReact && synthetic then f == Claimed
    else Truthy(Probed(f, supportReact, synthetic, marked))
  }

  /** An event is classified at most once: probing again, whatever the handler check would
      say the second time, neither changes the flag nor the answer. */
  lemma ProbeIsIdempotent(f: Fulfilled, supportReact: bool, synthetic: bool, m1: bool, m2: bool)
    ensures Probed(Probed(f, supportReact, synthetic, m1), supportReact, synthetic, m2)
         == Probed(f, supportReact, synthetic, m1)
    ensures Answer(Probed(f, supportReact, synthetic, m1), supportReact, synthetic, m2)
         == Answer(f, supportReact, synthetic, m1)
  {
  }

  /** A claimed event stays claimed and reads as fulfilled to every listener. */
  lemma ClaimedIsTerminal(supportReact: bool, synthetic: bool, marked: bool)
    ensures Probed(Claimed, supportReact, synthetic, marked) == Claimed
    ensures Answer(Claimed, supportReact, synthetic, marked)
  {
  }

  /** The React hand-over: a fresh native event with a React handler expected reads as
      fulfilled to the native listeners (which then step aside) and is parked, and the parked
      event reads as open to the React synthetic listener; without an expected handler it is
      open to everyone. */
  lemma ReactHandOver(marked: bool)
    ensures Answer(Unset, true, false, marked) == marked
    ensures Probed(Unset, true, false, marked) == (if marked then AwaitReact else NotReact)
    ensures !Answer(Probed(Unset, true, false, marked), true, true, false)
  {
  }

  /** With React support off the flag is never classified and the answer is its truthiness. */
  lemma NoReactSupport(f: Fulfilled, synthetic: bool, marked: bool)
    ensures Probed(f, false, synthetic, marked) == f
    ensures Answer(f, false, synthetic, marked) <==> Truthy(f)
  {
  }

  /** The object `options.savedProps` returns: the event's own `type`, `target`,
      `currentTarget` and `timeStamp`, and the native event's flag and pointer data. */
  datatype Record = Record(eventType: string, target: Option<NodeId>, currentTarget: Option<NodeId>,
                           timeStamp: int, fulfilled: Fulfilled, fulfilledAt: Option<NodeId>,
                           pointerType: Option<string>, defaultPrevented: bool)

  /** The default `savedProps(event, nativeEvent)`. */
  function SavedProps(e: EventObject, ne: EventObject): (r: Record)
    reads ne
    ensures r.target.Some? <==> e.path != []
    ensures ne.eventType == e.eventType ==> DeviceTypeOf(r.eventType, r.pointerType) == DeviceType(ne)
    ensures Truthy(r.fulfilled) <==> Truthy(ne.fulfilled)
  {
    Record(e.eventType, Target(e), e.currentTarget, e.timeStamp,
           ne.fulfilled, ne.fulfilledAt, ne.pointerType, ne.defaultPrevented)
  }

  /** `isGhostMouse`: a `mouse*` event after a `touch*` or `pointer*` event was registered. */
  predicate IsGhostMouse(eventType: string, last: Option<Record>)
    ensures IsGhostMouse(eventType, last) ==>
              last.Some? && !StartsWith(last.value.eventType, "mouse") && !StartsWith(last.value.eventType, "key")
  {
    StartsWith(eventType, "mouse") && last.Some?
    && (PrefixesAreExclusive(last.value.eventType);
        StartsWith(last.value.eventType, "touch") || StartsWith(last.value.eventType, "pointer"))
  }

  /** `isGhostTouch`: a `touch*` event after a touch `pointer*` event was registered. */
  predicate IsGhostTouch(eventType: string, last: Option<Record>)
    ensures IsGhostTouch(eventType, last) ==>
              last.Some? && !StartsWith(last.value.eventType, "touch") && !StartsWith(last.value.eventType, "mouse")
  {
    StartsWith(eventType, "touch") && last.Some?
    && (PrefixesAreExclusive(last.value.eventType); true)
    && StartsWith(last.value.eventType, "pointer") && last.value.pointerType == Some("touch")
  }

  /** A ghost is always one device emulating another: a ghost mouse event follows a touch or
      pointer event, a ghost touch event follows a touch pointer, and no event is both. */
  lemma GhostsAreCrossDevice(eventType: string, last: Option<Record>)
    ensures IsGhostMouse(eventType, last) ==>
              DeviceTypeOf(eventType, None) == Some("mouse")
    ensures IsGhostTouch(eventType, last) ==>
              DeviceTypeOf(eventType, None) == Some("touch")
              && DeviceTypeOf(last.value.eventType, last.value.pointerType) == Some("touch")
    ensures !(IsGhostMouse(eventType, last) && IsGhostTouch(eventType, last))
  {
    PrefixesAreExclusive(eventType);
    if last.Some? {
      PrefixesAreExclusive(last.value.eventType);
    }
  }
}
