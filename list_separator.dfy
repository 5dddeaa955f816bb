/** `listSeparator`: the partition of a type's listener data objects into the four
    DOM listener options (passive+capture, capture, passive, neither). */
module ListSeparator {

  /** Identity of a listener function. */
  type FnId = nat

  /** Identity of a listener data object: the `on` call that made it (`group`) and the
      position, in that call's type list, of the type it was made for. */
  datatype Uid = Uid(group: nat, index: nat)

  /** A `wrappedListener`: the listener itself, or the once-wrapper made by the `on` call `group`. */
  datatype Wrapped = Plain(listener: FnId) | OnceWrapper(listener: FnId, group: nat)

  /** A listener data object of a type's `handlers` list. */
  datatype Entry = Entry(listener: FnId, wrapped: Wrapped, capture: bool, passive: bool, once: bool, uid: Uid)

  /** The four option partitions, named as in `OPTION_KEYS`. */
  datatype Key = PassiveCapture | Capture | Passive | Normal

  /** `OPTION_KEYS`, in its order. */
  const OptionKeys: seq<Key> := [PassiveCapture, Capture, Passive, Normal]

  /** No key comes twice. */
  predicate Distinct(keys: seq<Key>) {
    forall i, j :: 0 <= i < j < |keys| ==> keys[i] != keys[j]
  }

  /** No key comes twice in `OPTION_KEYS`. */
  lemma OptionKeysAreDistinct()
    ensures Distinct(OptionKeys)
  {
    var ks := OptionKeys;
    assert ks[0] == PassiveCapture && ks[1] == Capture && ks[2] == Passive && ks[3] == Normal;
  }

  function KeyName(k: Key): string {
    match k
    case PassiveCapture => "passivecapture"
    case Capture => "capture"
    case Passive => "passive"
    case Normal => "normal"
  }

  predicate EndsWith(s: string, suffix: string) {
    |suffix| <= |s| && s[|s| - |suffix|..] == suffix
  }

  /** The `passive` option of the DOM listener for a key: `key.startsWith('passive')`. */
  predicate PassiveOption(k: Key) {
    "passive" <= KeyName(k)
  }

  /** The `capture` option of the DOM listener for a key: `key.endsWith('capture')`. */
  predicate CaptureOption(k: Key) {
    EndsWith(KeyName(k), "capture")
  }

  /** The partition a data object with these flags belongs to. */
  function KeyOf(capture: bool, passive: bool): Key {
    if passive && capture then PassiveCapture
    else if capture then Capture
    else if passive then Passive
    else Normal
  }

  /** The DOM options derived from a key's name are exactly the flags of the data objects
      sorted into that key, so each DOM listener is added with its partition's options. */
  lemma KeyOptionsAgree(capture: bool, passive: bool, k: Key)
    ensures CaptureOption(KeyOf(capture, passive)) == capture
    ensures PassiveOption(KeyOf(capture, passive)) == passive
    ensures KeyOf(CaptureOption(k), PassiveOption(k)) == k
  {
    assert KeyName(PassiveCapture)[7..] == "capture";
    assert KeyName(Capture)[0] != "passive"[0];
    assert KeyName(Normal)[..6] != "captur";
  }

  /** The object `listSeparator` returns. */
  datatype Partition = Partition(passivecapture: seq<Wrapped>, capture: seq<Wrapped>,
                                 passive: seq<Wrapped>, normal: seq<Wrapped>)
  {
    function Get(k: Key): seq<Wrapped> {
      match k
      case PassiveCapture => passivecapture
      case Capture => capture
      case Passive => passive
      case Normal => normal
    }
  }

  /** The `wrappedListener`s of the data objects of `list` that belong to `k`, in list order. */
  function Bucket(list: seq<Entry>, k: Key): seq<Wrapped> {
    if list == [] then []
    else
      var n := |list| - 1;
      Bucket(list[..n], k) + (if KeyOf(list[n].capture, list[n].passive) == k then [list[n].wrapped] else [])
  }

  /** The partition of `list`: each bucket filtered from the list. */
  function Separated(list: seq<Entry>): Partition {
    Partition(Bucket(list, PassiveCapture), Bucket(list, Capture), Bucket(list, Passive), Bucket(list, Normal))
  }

  /** The `wrappedListener`s of `list`, in order. */
  function WrappedOf(list: seq<Entry>): seq<Wrapped> {
    if list == [] then [] else WrappedOf(list[..|list| - 1]) + [list[|list| - 1].wrapped]
  }

  /** `listSeparator(list)`: one pass over the list, pushing each `wrappedListener` onto the
      array of its partition. */
  method ListSeparator(list: seq<Entry>) returns (p: Partition)
    ensures p == Separated(list)
  {
    var passivecapture, capture, passive, normal := [], [], [], [];
    for i := 0 to |list|
      invariant passivecapture == Bucket(list[..i], PassiveCapture)
      invariant capture == Bucket(list[..i], Capture)
      invariant passive == Bucket(list[..i], Passive)
      invariant normal == Bucket(list[..i], Normal)
    {
      var obj := list[i];
      assert list[..i + 1][..i] == list[..i];
      if obj.passive && obj.capture {
        passivecapture := passivecapture + [obj.wrapped];
      } else if obj.capture {
        capture := capture + [obj.wrapped];
      } else if obj.passive {
        passive := passive + [obj.wrapped];
      } else {
        normal := normal + [obj.wrapped];
      }
    }
    assert list[..|list|] == list;
    p := Partition(passivecapture, capture, passive, normal);
  }

  /** Every data object lands in exactly one bucket: together the four buckets hold each
      `wrappedListener` of the list as often as the list does. */
  lemma {:induction false} SeparatedIsPermutation(list: seq<Entry>)
    ensures multiset(Bucket(list, PassiveCapture)) + multiset(Bucket(list, Capture))
          + multiset(Bucket(list, Passive)) + multiset(Bucket(list, Normal))
         == multiset(WrappedOf(list))
    ensures |Bucket(list, PassiveCapture)| + |Bucket(list, Capture)|
          + |Bucket(list, Passive)| + |Bucket(list, Normal)| == |list|
  {
    if list != [] {
      SeparatedIsPermutation(list[..|list| - 1]);
    }
  }

  /** A data object put in front of the list comes first in its own bucket and changes no
      other bucket: the order in which `on` inserts is the order a partition fires in. */
  lemma {:induction false} BucketPrepend(e: Entry, list: seq<Entry>, k: Key)
    ensures Bucket([e] + list, k) == (if KeyOf(e.capture, e.passive) == k then [e.wrapped] else []) + Bucket(list, k)
  {
    if list != [] {
      var n := |list| - 1;
      assert ([e] + list)[..n + 1] == [e] + list[..n];
      BucketPrepend(e, list[..n], k);
    } else {
      assert [e][..0] == [];
    }
  }

  /** A bucket holds only the `wrappedListener`s of data objects of the list. */
  lemma {:induction false} BucketMember(list: seq<Entry>, k: Key, w: Wrapped)
    requires w in Bucket(list, k)
    ensures exists e :: e in list && e.wrapped == w && KeyOf(e.capture, e.passive) == k
  {
    var n := |list| - 1;
    if w in Bucket(list[..n], k) {
      BucketMember(list[..n], k, w);
      var e :| e in list[..n] && e.wrapped == w && KeyOf(e.capture, e.passive) == k;
      assert e in list;
    } else {
      assert list[n] in list;
    }
  }

  /** A data object put at the end of the list comes last in its own bucket. */
  lemma BucketAppend(list: seq<Entry>, e: Entry, k: Key)
    ensures Bucket(list + [e], k) == Bucket(list, k) + (if KeyOf(e.capture, e.passive) == k then [e.wrapped] else [])
  {
    assert (list + [e])[..|list|] == list;
  }

  /** The cases of test/utils/listSeparator.spec.js. */
  lemma ListSeparatorExamples(f: Wrapped, u: Uid)
    ensures Separated([]) == Partition([], [], [], [])
    ensures Separated([Entry(0, f, false, false, false, u)]) == Partition([], [], [], [f])
    ensures Separated([Entry(0, f, false, true, false, u)]) == Partition([], [], [f], [])
    ensures Separated([Entry(0, f, true, false, false, u)]) == Partition([], [f], [], [])
    ensures Separated([Entry(0, f, true, true, false, u)]) == Partition([f], [], [], [])
  {
    var es := [Entry(0, f, false, false, false, u), Entry(0, f, false, true, false, u),
               Entry(0, f, true, false, false, u), Entry(0, f, true, true, false, u)];
    forall i | 0 <= i < 4 ensures [es[i]][..0] == [] { }
  }
}
