/** The type-string parser: `typeArray` splits a type string such as
    'touchstart/mousedown' into its event type names. */
module TypeArray {
  import opened Wrappers

  /** The characters `String.prototype.trim` removes: ECMAScript WhiteSpace and LineTerminator. */
  predicate IsWhitespace(c: char) {
    || c == '\t' || c == '\n' || c == '\U{B}' || c == '\U{C}' || c == '\r' || c == ' '
    || c == '\U{A0}' || c == '\U{1680}' || ('\U{2000}' <= c <= '\U{200A}')
    || c == '\U{2028}' || c == '\U{2029}' || c == '\U{202F}' || c == '\U{205F}'
    || c == '\U{3000}' || c == '\U{FEFF}'
  }

  /** A well-formed event type name: non-empty, trimmed and free of separator characters. */
  predicate IsTypeName(t: string, seps: set<char>) {
    && t != []
    && !IsWhitespace(t[0])
    && !IsWhitespace(t[|t| - 1])
    && forall c <- t :: c !in seps
  }

  /** `s.split(separator)` for a separator that matches exactly one character of `seps`.
      Like JavaScript, the empty string splits into one empty piece. */
  function SplitOn(s: string, seps: set<char>): (r: seq<string>)
    ensures |r| >= 1
    ensures forall p <- r, c <- p :: c !in seps
  {
    if s == [] then [[]]
    else
      var rest := SplitOn(s[1..], seps);
      if s[0] in seps then [[]] + rest
      else [[s[0]] + rest[0]] + rest[1..]
  }

  /** Drops leading whitespace: what is left is a suffix of `s`. */
  function TrimStart(s: string): (r: string)
    ensures |r| <= |s| && r == s[|s| - |r|..]
    ensures r == [] || !IsWhitespace(r[0])
  {
    if s != [] && IsWhitespace(s[0]) then TrimStart(s[1..]) else s
  }

  /** What `TrimStart` drops is whitespace. */
  lemma {:induction false} TrimStartDropsWhitespace(s: string)
    ensures AllWhitespace(s[..|s| - |TrimStart(s)|])
  {
    if s != [] && IsWhitespace(s[0]) {
      TrimStartDropsWhitespace(s[1..]);
      var r := TrimStart(s[1..]);
      assert s[..|s| - |r|] == [s[0]] + s[1..][..|s| - 1 - |r|];
    }
  }

  /** Drops trailing whitespace: what is left is a prefix of `s`. */
  function TrimEnd(s: string): (r: string)
    ensures |r| <= |s| && r == s[..|r|]
    ensures r == [] || !IsWhitespace(r[|r| - 1])
  {
    if s != [] && IsWhitespace(s[|s| - 1]) then TrimEnd(s[..|s| - 1]) else s
  }

  /** What `TrimEnd` drops is whitespace. */
  lemma {:induction false} TrimEndDropsWhitespace(s: string)
    ensures AllWhitespace(s[|TrimEnd(s)|..])
  {
    if s != [] && IsWhitespace(s[|s| - 1]) {
      TrimEndDropsWhitespace(s[..|s| - 1]);
      var r := TrimEnd(s[..|s| - 1]);
      assert s[|r|..] == s[..|s| - 1][|r|..] + [s[|s| - 1]];
    }
  }

  /** `s.trim()` */
  function Trim(s: string): (r: string)
    ensures r == [] || (!IsWhitespace(r[0]) && !IsWhitespace(r[|r| - 1]))
    ensures s == [] || (!IsWhitespace(s[0]) && !IsWhitespace(s[|s| - 1])) ==> r == s
  {
    TrimEnd(TrimStart(s))
  }

  /** How many characters `trim` drops at the start of `s`. */
  function Lead(s: string): nat {
    |s| - |TrimStart(s)|
  }

  /** Nothing but whitespace. */
  predicate AllWhitespace(s: string) {
    forall c <- s :: IsWhitespace(c)
  }

  /** Trimming cuts whitespace off the two ends of `s` and nothing else: the result is the
      slice of `s` after its first `Lead(s)` characters, and what lies before and after that
      slice is all whitespace. */
  lemma TrimCutsEnds(s: string)
    ensures var r, i := Trim(s), Lead(s);
            && i + |r| <= |s| && r == s[i..i + |r|] && AllWhitespace(s[..i]) && AllWhitespace(s[i + |r|..])
  {
    var a := TrimStart(s);
    var r := TrimEnd(a);
    var i := Lead(s);
    TrimStartDropsWhitespace(s);
    assert AllWhitespace(s[..i]);
    TrimEndDropsWhitespace(a);
    SliceOfSlice(s, a, r, i);
    assert AllWhitespace(s[i + |r|..]) by {
      assert s[i + |r|..] == a[|r|..];
    }
  }

  /** A prefix of a suffix is a slice, and what follows it is a suffix of both. */
  lemma SliceOfSlice(s: string, a: string, r: string, i: nat)
    requires i <= |s| && a == s[i..] && |r| <= |a| && r == a[..|r|]
    ensures i + |r| <= |s| && r == s[i..i + |r|] && s[i + |r|..] == a[|r|..]
  {
  }

  /** The `.map(t => t.trim()).filter(t => t)` stage: trimmed pieces, empty ones dropped. */
  function Tokens(pieces: seq<string>): (r: seq<string>)
    ensures |r| <= |pieces|
    ensures forall t <- r :: t != [] && !IsWhitespace(t[0]) && !IsWhitespace(t[|t| - 1])
  {
    if pieces == [] then []
    else
      var t, rest := Trim(pieces[0]), Tokens(pieces[1..]);
      if t == [] then rest else [t] + rest
  }

  /** A trimmed piece holds only characters of the piece. */
  lemma TrimSeparatorFree(s: string, seps: set<char>)
    requires forall c <- s :: c !in seps
    ensures forall c <- Trim(s) :: c !in seps
  {
    TrimCutsEnds(s);
    var i, r := Lead(s), Trim(s);
    forall c | c in r ensures c !in seps {
      var k :| 0 <= k < |r| && r[k] == c;
      assert r[k] == s[i + k];
    }
  }

  /** Trimming only removes characters, so tokens of separator-free pieces are separator-free. */
  lemma {:induction false} TokensSeparatorFree(pieces: seq<string>, seps: set<char>)
    requires forall p <- pieces, c <- p :: c !in seps
    ensures forall t <- Tokens(pieces), c <- t :: c !in seps
  {
    if pieces != [] {
      assert pieces[0] in pieces;
      TrimSeparatorFree(pieces[0], seps);
      TokensSeparatorFree(pieces[1..], seps);
    }
  }

  /** The type names of the type string `s`, in order. */
  function Split(s: string, seps: set<char>): (r: seq<string>)
    ensures forall t <- r :: IsTypeName(t, seps)
  {
    TokensSeparatorFree(SplitOn(s, seps), seps);
    Tokens(SplitOn(s, seps))
  }

  /** The argument of `typeArray`, which JavaScript does not type. */
  datatype TypeString = Str(s: string) | NonString

  /** `typeArray(typestring, separator)` of src/utils/typeArray.js: a non-string throws,
      a string yields its type names. */
  function TypeArray(typestring: TypeString, seps: set<char>): (r: Result<seq<string>, Thrown>)
    ensures r.Failure? <==> typestring.NonString?
    ensures r.Success? ==> forall t <- r.value :: IsTypeName(t, seps)
  {
    match typestring
    case NonString => Failure(Error("Expected the typestring to be a string"))
    case Str(s) => Success(Split(s, seps))
  }

  /** The type names joined, `cs[i]` being the separator character between `ts[i]` and
      `ts[i + 1]`, so one string may mix separators. */
  function Join(ts: seq<string>, cs: seq<char>): string
    requires |ts| == |cs| + 1 || (ts == [] && cs == [])
  {
    if |ts| <= 1 then (if ts == [] then [] else ts[0])
    else ts[0] + [cs[0]] + Join(ts[1..], cs[1..])
  }

  /** Splitting a separator-free prefix extends the first piece of the rest. */
  lemma {:induction false} SplitOnPrefix(t: string, x: string, seps: set<char>)
    requires forall c <- t :: c !in seps
    ensures SplitOn(t + x, seps) == [t + SplitOn(x, seps)[0]] + SplitOn(x, seps)[1..]
  {
    if t == [] {
      var sx := SplitOn(x, seps);
      assert t + x == x;
      assert t + sx[0] == sx[0];
      assert [sx[0]] + sx[1..] == sx;
    } else {
      assert (t + x)[1..] == t[1..] + x;
      SplitOnPrefix(t[1..], x, seps);
      assert [t[0]] + (t[1..] + SplitOn(x, seps)[0]) == t + SplitOn(x, seps)[0];
    }
  }

  /** Splitting separator-free pieces joined by separators gives the pieces back, in order. */
  lemma {:induction false} SplitOnJoin(ts: seq<string>, cs: seq<char>, seps: set<char>)
    requires ts != [] && |ts| == |cs| + 1
    requires forall c <- cs :: c in seps
    requires forall t <- ts, c <- t :: c !in seps
    ensures SplitOn(Join(ts, cs), seps) == ts
  {
    if |ts| == 1 {
      SplitOnPrefix(ts[0], [], seps);
      assert ts[0] + [] == ts[0];
    } else {
      var sep := cs[0];
      assert sep in cs;
      var rest := Join(ts[1..], cs[1..]);
      assert forall c <- cs[1..] :: c in cs;
      SplitOnJoin(ts[1..], cs[1..], seps);
      assert Join(ts, cs) == ts[0] + ([sep] + rest);
      SplitOnPrefix(ts[0], [sep] + rest, seps);
      assert ([sep] + rest)[1..] == rest;
      assert SplitOn([sep] + rest, seps) == [[]] + SplitOn(rest, seps);
      assert ts[0] + [] == ts[0];
      assert ts == [ts[0]] + ts[1..];
    }
  }

  /** Trimming and filtering leave well-formed type names alone. */
  lemma {:induction false} TokensOfTypeNames(ts: seq<string>, seps: set<char>)
    requires forall t <- ts :: IsTypeName(t, seps)
    ensures Tokens(ts) == ts
  {
    if ts != [] {
      TokensOfTypeNames(ts[1..], seps);
      assert ts[0] in ts;
      assert Trim(ts[0]) == ts[0];
      assert ts == [ts[0]] + ts[1..];
    }
  }

  /** Parsing joined separator-free pieces trims them and drops the empty ones. */
  lemma SplitOfJoin(pieces: seq<string>, cs: seq<char>, seps: set<char>)
    requires pieces != [] && |pieces| == |cs| + 1
    requires forall c <- cs :: c in seps
    requires forall t <- pieces, c <- t :: c !in seps
    ensures Split(Join(pieces, cs), seps) == Tokens(pieces)
  {
    SplitOnJoin(pieces, cs, seps);
  }

  /** Round trip: joining well-formed type names with any mix of separators and parsing
      the result gives back the same names in the same order. */
  lemma SplitJoinRoundTrip(ts: seq<string>, cs: seq<char>, seps: set<char>)
    requires |ts| == |cs| + 1 || (ts == [] && cs == [])
    requires forall c <- cs :: c in seps
    requires forall t <- ts :: IsTypeName(t, seps)
    ensures Split(Join(ts, cs), seps) == ts
  {
    if ts != [] {
      SplitOnJoin(ts, cs, seps);
      TokensOfTypeNames(ts, seps);
    }
  }

  /** The empty string does not throw and has no type names. */
  lemma EmptyTypeString(seps: set<char>)
    ensures TypeArray(Str(""), seps) == Success([])
  {
  }

  /** The first case of test/utils/typeArray.spec.js, with the default separator ' |/'. */
  lemma TypeArraySlashes()
    ensures Split("click/mousedown/keydown", {' ', '/'}) == ["click", "mousedown", "keydown"]
  {
    var ts := ["click", "mousedown", "keydown"];
    SlashesJoined(ts);
    SlashesNamed(ts);
    SplitJoinRoundTrip(ts, "//", {' ', '/'});
  }

  lemma SlashesJoined(ts: seq<string>)
    requires ts == ["click", "mousedown", "keydown"]
    ensures Join(ts, "//") == "click/mousedown/keydown"
  {
    assert Join(ts[2..], "//"[2..]) == "keydown";
    assert Join(ts[1..], "//"[1..]) == "mousedown/keydown";
  }

  lemma SlashesNamed(ts: seq<string>)
    requires ts == ["click", "mousedown", "keydown"]
    ensures forall t <- ts :: IsTypeName(t, {' ', '/'})
  {
    assert IsTypeName("click", {' ', '/'});
    assert IsTypeName("mousedown", {' ', '/'});
    assert IsTypeName("keydown", {' ', '/'});
  }

  /** A type string mixing both default separators keeps its names in order. */
  lemma TypeArrayMixed()
    ensures Split("touchstart mousedown/click", {' ', '/'}) == ["touchstart", "mousedown", "click"]
  {
    var ts := ["touchstart", "mousedown", "click"];
    MixedJoined(ts);
    MixedNamed(ts);
    SplitJoinRoundTrip(ts, " /", {' ', '/'});
  }

  lemma MixedJoined(ts: seq<string>)
    requires ts == ["touchstart", "mousedown", "click"]
    ensures Join(ts, " /") == "touchstart mousedown/click"
  {
    assert Join(ts[2..], " /"[2..]) == "click";
    assert Join(ts[1..], " /"[1..]) == "mousedown/click";
  }

  lemma MixedNamed(ts: seq<string>)
    requires ts == ["touchstart", "mousedown", "click"]
    ensures forall t <- ts :: IsTypeName(t, {' ', '/'})
  {
    assert IsTypeName("touchstart", {' ', '/'});
    assert IsTypeName("mousedown", {' ', '/'});
    assert IsTypeName("click", {' ', '/'});
  }

  /** A separator at the start produces an empty piece, which is dropped. */
  lemma LeadingSeparatorIgnored(c: char, s: string, seps: set<char>)
    requires c in seps
    ensures Split([c] + s, seps) == Split(s, seps)
  {
    assert ([c] + s)[1..] == s;
    assert SplitOn([c] + s, seps) == [[]] + SplitOn(s, seps);
    assert ([[]] + SplitOn(s, seps))[1..] == SplitOn(s, seps);
  }


}
