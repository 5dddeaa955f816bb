/** The parts of the DOM and of event objects that the hub reads or writes. */
module Dom {
  import opened Wrappers

  type NodeId = nat

  /** An element: its identity and its `className` attribute. */
  datatype Node = Node(id: NodeId, className: string)

  /** The `fulfilled` property of a native event:
      unset (`null`/`undefined`), `false`, `'react'` and `true`. */
  datatype Fulfilled = Unset | NotReact | AwaitReact | Claimed

  /** JavaScript truthiness of a `fulfilled` value. */
  predicate Truthy(f: Fulfilled) {
    f == AwaitReact || f == Claimed
  }

  /** An event object as the hub sees it: a native event, a jQuery event (which has an
      `originalEvent`) or a React synthetic event (which has a `nativeEvent`).
      `path` is `target` followed by its `parentElement` chain up to the root; it is empty
      when `target` is null. Only `fulfilled` and `fulfilledAt` are written by the hub. */
  class EventObject {
    const eventType: string
    const path: seq<Node>
    const currentTarget: Option<NodeId>
    const timeStamp: int
    const pointerType: Option<string>
    const defaultPrevented: bool
    const originalEvent: EventObject?
    const nativeEvent: EventObject?
    var fulfilled: Fulfilled
    var fulfilledAt: Option<NodeId>

    constructor (eventType: string, path: seq<Node>, currentTarget: Option<NodeId>, timeStamp: int,
                 pointerType: Option<string>, defaultPrevented: bool,
                 originalEvent: EventObject?, nativeEvent: EventObject?)
      ensures this.eventType == eventType && this.path == path && this.currentTarget == currentTarget
      ensures this.timeStamp == timeStamp && this.pointerType == pointerType
      ensures this.defaultPrevented == defaultPrevented
      ensures this.originalEvent == originalEvent && this.nativeEvent == nativeEvent
      ensures fulfilled == Unset && fulfilledAt == None
    {
      this.eventType := eventType;
      this.path := path;
      this.currentTarget := currentTarget;
      this.timeStamp := timeStamp;
      this.pointerType := pointerType;
      this.defaultPrevented := defaultPrevented;
      this.originalEvent := originalEvent;
      this.nativeEvent := nativeEvent;
      fulfilled := Unset;
      fulfilledAt := None;
    }
  }

  /** The event's `target`. */
  function Target(e: EventObject): Option<NodeId> {
    if e.path == [] then None else Some(e.path[0].id)
  }
}
