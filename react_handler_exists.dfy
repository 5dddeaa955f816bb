/** `reactHandlerExists`: whether a React handler is expected for an event, judged by a
    `react-<type>` class token on the path from the event's target up to, but not
    including, its current target. */
module ReactHandlerExists {
  import opened Wrappers
  import opened Dom
  import TypeArray

  /** `hay.indexOf(needle) > -1` */
  predicate Contains(hay: string, needle: string)
    decreases |hay|
  {
    needle <= hay || (hay != [] && Contains(hay[1..], needle))
  }

  /** The test of one node: `` ` ${className} `.indexOf(` react-${type} `) > -1 ``. */
  predicate HasMarker(className: string, eventType: string) {
    Contains(" " + className + " ", " react-" + eventType + " ")
  }

  /** Some node of `path` carries the marker, and neither it nor any node before it is `current`. */
  predicate MarkedBelow(path: seq<Node>, current: Option<NodeId>, eventType: string) {
    exists i :: 0 <= i < |path| && HasMarker(path[i].className, eventType)
                && forall j :: 0 <= j <= i ==> Some(path[j].id) != current
  }

  /** `reactHandlerExists(event)`: a synthetic event (one with a `nativeEvent`) yields false at
      once; otherwise the walk from `target` along `parentElement` stops at `currentTarget` or
      at the root, and succeeds at the first node carrying the marker. */
  method ReactHandlerExists(event: EventObject) returns (r: bool)
    ensures r <==> event.nativeEvent == null && MarkedBelow(event.path, event.currentTarget, event.eventType)
  {
    if event.nativeEvent != null {
      return false;
    }
    var cls := " react-" + event.eventType + " ";
    var i := 0;
    while i < |event.path| && Some(event.path[i].id) != event.currentTarget
      invariant 0 <= i <= |event.path|
      invariant forall j :: 0 <= j < i ==> Some(event.path[j].id) != event.currentTarget
      invariant forall j :: 0 <= j < i ==> !HasMarker(event.path[j].className, event.eventType)
    {
      if Contains(" " + event.path[i].className + " ", cls) {
        return true;
      }
      i := i + 1;
    }
    return false;
  }

  /** A target that is the current target is never examined, nor is anything above it. */
  lemma CurrentTargetNotExamined(path: seq<Node>, current: Option<NodeId>, eventType: string)
    requires path != [] && current == Some(path[0].id)
    ensures !MarkedBelow(path, current, eventType)
  {
  }

  /** The index of the first space of `s`, or `|s|`. */
  function FirstSpace(s: string): (k: nat)
    ensures k <= |s| && (k < |s| ==> s[k] == ' ') && forall j :: 0 <= j < k ==> s[j] != ' '
  {
    if s == [] || s[0] == ' ' then 0 else 1 + FirstSpace(s[1..])
  }

  /** An occurrence at any offset is an occurrence. */
  lemma {:induction false} ContainsAt(hay: string, needle: string, k: nat)
    requires k <= |hay| && needle <= hay[k..]
    ensures Contains(hay, needle)
    decreases k
  {
    if k > 0 {
      assert hay[1..][k - 1..] == hay[k..];
      ContainsAt(hay[1..], needle, k - 1);
    }
  }

  /** A match of a space-led needle cannot start inside a space-free word. */
  lemma {:induction false} SkipWord(a: string, y: string, needle: string)
    requires needle != [] && needle[0] == ' '
    requires forall j :: 0 <= j < |a| ==> a[j] != ' '
    ensures Contains(a + y, needle) <==> Contains(y, needle)
  {
    if a != [] {
      assert (a + y)[0] == a[0];
      assert (a + y)[1..] == a[1..] + y;
      SkipWord(a[1..], y, needle);
    } else {
      assert a + y == y;
    }
  }

  /** The first space after a space-free word is the one that ends it. */
  lemma {:induction false} FirstSpaceAfterWord(w: string, y: string)
    requires forall j :: 0 <= j < |w| ==> w[j] != ' '
    ensures FirstSpace(w + " " + y) == |w|
  {
    if w != [] {
      assert (w + " " + y)[1..] == w[1..] + " " + y;
      FirstSpaceAfterWord(w[1..], y);
    }
  }

  /** A prefix that holds a space fixes where the first space is. */
  lemma {:induction false} FirstSpaceOfPrefix(a: string, b: string)
    requires a <= b && FirstSpace(a) < |a|
    ensures FirstSpace(b) == FirstSpace(a)
  {
    if a[0] != ' ' {
      FirstSpaceOfPrefix(a[1..], b[1..]);
    }
  }

  /** The padded token matches at the start exactly when the first word is the token. */
  lemma PrefixIsWord(w: string, y: string, token: string)
    requires ' ' !in token
    requires forall j :: 0 <= j < |w| ==> w[j] != ' '
    ensures " " + token + " " <= " " + w + " " + y <==> w == token
  {
    var n := " " + token + " ";
    var p := " " + w + " " + y;
    if n <= p {
      assert forall j :: 0 <= j < |token| ==> token[j] in token;
      assert n[1..] == token + " " + [];
      assert p[1..] == w + " " + y;
      FirstSpaceAfterWord(token, []);
      FirstSpaceAfterWord(w, y);
      FirstSpaceOfPrefix(n[1..], p[1..]);
      assert token == n[1..|token| + 1];
      assert w == p[1..|w| + 1];
    }
  }

  /** The marker test matches whole space-separated class tokens: a padded token occurs in
      the padded class name exactly when it is one of the class name's tokens. */
  lemma {:induction false} MarkerIsWholeToken(className: string, token: string)
    requires token != [] && ' ' !in token
    ensures Contains(" " + className + " ", " " + token + " ") <==> token in TypeArray.SplitOn(className, {' '})
    decreases |className|
  {
    var n := " " + token + " ";
    var k := FirstSpace(className);
    var a := className[..k];
    assert forall j :: 0 <= j < |a| ==> a[j] != ' ';
    if k == |className| {
      assert a == className;
      TypeArray.SplitOnPrefix(className, [], {' '});
      assert className + [] == className;
      assert (" " + className + " ")[1..] == className + " ";
      SkipWord(className, " ", n);
      assert !Contains(" ", n) by {
        assert !(n <= " ");
        assert !Contains(" "[1..], n);
      }
      PrefixIsWord(className, [], token);
      assert " " + className + " " + [] == " " + className + " ";
    } else {
      var rest := className[k + 1..];
      assert className == a + (" " + rest);
      TypeArray.SplitOnPrefix(a, " " + rest, {' '});
      assert (" " + rest)[1..] == rest;
      assert TypeArray.SplitOn(" " + rest, {' '}) == [[]] + TypeArray.SplitOn(rest, {' '});
      assert a + [] == a;
      assert TypeArray.SplitOn(className, {' '}) == [a] + TypeArray.SplitOn(rest, {' '});
      MarkerIsWholeToken(rest, token);
      var p := " " + className + " ";
      assert p == " " + a + " " + (rest + " ");
      assert p[1..] == a + (" " + rest + " ");
      SkipWord(a, " " + rest + " ", n);
      PrefixIsWord(a, rest + " ", token);
    }
  }

  /** A needle holding a character the haystack lacks does not occur in it. */
  lemma {:induction false} MissingChar(hay: string, needle: string, c: char)
    requires c in needle && c !in hay
    ensures !Contains(hay, needle)
    decreases |hay|
  {
    if hay != [] {
      assert hay[1..] <= hay[1..];
      assert forall x :: x in hay[1..] ==> x in hay;
      MissingChar(hay[1..], needle, c);
    }
  }

  /** The button of the tree of test/utils/reactHandlerExists.spec.js is marked for clicks. */
  lemma ButtonMarked(className: string, eventType: string)
    requires className == "button react-click" && eventType == "click"
    ensures HasMarker(className, eventType)
  {
    var padded := " " + className + " ";
    var needle := " react-" + eventType + " ";
    assert padded[7..][..|needle|] == needle;
    ContainsAt(padded, needle, 7);
  }

  /** The modal of that tree is marked for keydowns. */
  lemma ModalMarked(className: string, eventType: string)
    requires className == "modal react-keydown" && eventType == "keydown"
    ensures HasMarker(className, eventType)
  {
    var padded := " " + className + " ";
    var needle := " react-" + eventType + " ";
    assert padded[6..][..|needle|] == needle;
    ContainsAt(padded, needle, 6);
  }

  /** The icon of that tree is not marked for any type: it holds no `r`. */
  lemma IconUnmarked(className: string, eventType: string)
    requires className == "icon"
    ensures !HasMarker(className, eventType)
  {
    var padded := " " + className + " ";
    var needle := " react-" + eventType + " ";
    assert needle == " react-" + (eventType + " ");
    assert needle[1] == " react-"[1] == 'r';
    assert padded == " icon ";
    MissingChar(padded, needle, 'r');
  }

  /** The container and the body of that tree are not marked for keydowns: they hold no `k`. */
  lemma NoKeydownMarker(className: string, eventType: string)
    requires className == "container" || className == "body main-app "
    requires eventType == "keydown"
    ensures !HasMarker(className, eventType)
  {
    var padded := " " + className + " ";
    var needle := " react-" + eventType + " ";
    assert needle[7] == 'k';
    assert padded == " container " || padded == " body main-app  ";
    MissingChar(padded, needle, 'k');
  }

  /** The six-node tree of test/utils/reactHandlerExists.spec.js:
      icon < button < modal < container < body < document, with ids 0 to 5. */
  predicate IsSpecTree(tree: seq<Node>) {
    tree == [Node(0, "icon"), Node(1, "button react-click"), Node(2, "modal react-keydown"),
             Node(3, "container"), Node(4, "body main-app "), Node(5, "document")]
  }

  /** A click on the icon, heard on the container, passes the marked button. */
  lemma ClickBelowContainer(tree: seq<Node>)
    requires IsSpecTree(tree)
    ensures MarkedBelow(tree, Some(3), "click")
  {
    ButtonMarked(tree[1].className, "click");
    assert HasMarker(tree[1].className, "click");
    assert forall j :: 0 <= j <= 1 ==> Some(tree[j].id) != Some(3);
  }

  /** Heard on the button itself, the click and the mousedown find no marker below it. */
  lemma NothingBelowButton(tree: seq<Node>)
    requires IsSpecTree(tree)
    ensures !MarkedBelow(tree, Some(1), "click")
    ensures !MarkedBelow(tree, Some(1), "mousedown")
  {
    IconUnmarked(tree[0].className, "click");
    IconUnmarked(tree[0].className, "mousedown");
    assert tree[0].className == "icon" && tree[1].id == 1;
  }

  /** A keydown from the button, heard on the document, passes the marked modal. */
  lemma KeydownFromButton(tree: seq<Node>)
    requires IsSpecTree(tree)
    ensures MarkedBelow(tree[1..], Some(5), "keydown")
  {
    var up := tree[1..];
    ModalMarked(up[1].className, "keydown");
    assert HasMarker(up[1].className, "keydown");
    assert forall j :: 0 <= j <= 1 ==> Some(up[j].id) != Some(5);
  }

  /** A keydown from the container passes no marked node on its way to the document. */
  lemma KeydownFromContainer(tree: seq<Node>)
    requires IsSpecTree(tree)
    ensures !MarkedBelow(tree[3..], Some(5), "keydown")
  {
    var up := tree[3..];
    assert up == [Node(3, "container"), Node(4, "body main-app "), Node(5, "document")];
    NoKeydownMarker(up[0].className, "keydown");
    NoKeydownMarker(up[1].className, "keydown");
  }
}
