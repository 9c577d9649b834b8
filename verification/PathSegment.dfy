/** The check on path segments of discovered URLs, which looks at every depth of percent
    decoding, and the comparison of decoded paths that keeps requests inside the scope. */
module PathSegment {
  import opened Common

  // ---------- One decoding ----------

  predicate EscapeAt(s: string, i: nat) {
    i + 3 <= |s| && s[i] == '%' && IsHex(s[i + 1]) && IsHex(s[i + 2])
  }

  function ByteAt(s: string, i: nat): (b: nat)
    requires EscapeAt(s, i)
    ensures b < 256
  {
    HexValue(s[i + 1]) * 16 + HexValue(s[i + 2])
  }

  /** The payload of an escaped UTF-8 continuation byte. */
  function ContinuationAt(s: string, i: nat): (r: Option<nat>)
    ensures r.Some? ==> r.value < 64 && EscapeAt(s, i)
  {
    if EscapeAt(s, i) && 0x80 <= ByteAt(s, i) < 0xC0 then Some(ByteAt(s, i) - 0x80) else None
  }

  /** A decoded character and the length of the text that spelt it. */
  datatype Decoded = Decoded(c: char, length: nat)

  predicate EscapesOnly(s: string, n: nat)
    requires n <= |s|
  {
    forall j :: 0 <= j < n ==> s[j] == '%' || IsHex(s[j])
  }

  /** The character spelt by the escapes at the front: one to four bytes of shortest UTF-8. */
  function DecodeHead(s: string): (r: Option<Decoded>)
    ensures r.Some? ==> EscapeAt(s, 0) && 3 <= r.value.length <= |s| && EscapesOnly(s, r.value.length)
  {
    if !EscapeAt(s, 0) then None
    else
      var b := ByteAt(s, 0);
      if b < 0x80 then Some(Decoded(b as char, 3))
      else if 0xC2 <= b < 0xE0 then
        var x := ContinuationAt(s, 3);
        if x.None? then None else Some(Decoded(((b - 0xC0) * 0x40 + x.value) as char, 6))
      else if 0xE0 <= b < 0xF0 then
        var x, y := ContinuationAt(s, 3), ContinuationAt(s, 6);
        if x.None? || y.None? then None
        else
          var code := ((b - 0xE0) * 0x40 + x.value) * 0x40 + y.value;
          if code < 0x800 || 0xD800 <= code < 0xE000 then None else Some(Decoded(code as char, 9))
      else if 0xF0 <= b < 0xF5 then
        var x, y, z := ContinuationAt(s, 3), ContinuationAt(s, 6), ContinuationAt(s, 9);
        if x.None? || y.None? || z.None? then None
        else
          var code := (((b - 0xF0) * 0x40 + x.value) * 0x40 + y.value) * 0x40 + z.value;
          if code < 0x1_0000 || 0x11_0000 <= code then None else Some(Decoded(code as char, 12))
      else None
  }

  /** `decodeURIComponent`: `None` where it throws. */
  function Decode(s: string): Option<string> {
    if s == "" then Some("")
    else if s[0] != '%' then Prepend(s[0], Decode(s[1..]))
    else
      var head := DecodeHead(s);
      if head.None? then None else Prepend(head.value.c, Decode(s[head.value.length..]))
  }

  predicate HasEscape(s: string) {
    exists i :: 0 <= i < |s| && EscapeAt(s, i)
  }

  lemma {:induction false} EscapeShifts(s: string, n: nat, i: nat)
    requires n <= |s|
    ensures EscapeAt(s[n..], i) <==> EscapeAt(s, n + i)
  {
  }

  /** Text without escapes decodes to itself or not at all. */
  lemma {:induction false} EscapeFreeIsFixed(s: string)
    requires !HasEscape(s)
    ensures Decode(s) == None || Decode(s) == Some(s)
    ensures '%' !in s ==> Decode(s) == Some(s)
  {
    if s != "" {
      assert !EscapeAt(s, 0);
      forall i | 0 <= i < |s| - 1 ensures !EscapeAt(s[1..], i) {
        EscapeShifts(s, 1, i);
      }
      EscapeFreeIsFixed(s[1..]);
      assert s == [s[0]] + s[1..];
    }
  }

  lemma {:induction false} DecodeNoLonger(s: string)
    ensures Decode(s).Some? ==> |Decode(s).value| <= |s|
  {
    if s != "" {
      if s[0] != '%' {
        DecodeNoLonger(s[1..]);
      } else if DecodeHead(s).Some? {
        DecodeNoLonger(s[DecodeHead(s).value.length..]);
      }
    }
  }

  /** Decoding a text that has an escape makes it at least two characters shorter. */
  lemma {:induction false} DecodeShortens(s: string)
    requires HasEscape(s)
    ensures Decode(s).Some? ==> |Decode(s).value| + 2 <= |s|
  {
    if s[0] == '%' {
      if DecodeHead(s).Some? {
        DecodeNoLonger(s[DecodeHead(s).value.length..]);
      }
    } else {
      var i :| 0 <= i < |s| && EscapeAt(s, i);
      EscapeShifts(s, 1, i - 1);
      assert EscapeAt(s[1..], i - 1);
      DecodeShortens(s[1..]);
    }
  }

  /** A character that cannot be part of an escape is still there after decoding. */
  lemma {:induction false} OrdinaryPersists(s: string, c: char)
    requires c in s && c != '%' && !IsHex(c)
    ensures Decode(s).Some? ==> c in Decode(s).value
  {
    if s[0] != '%' {
      assert s == [s[0]] + s[1..];
      if c != s[0] {
        OrdinaryPersists(s[1..], c);
      }
    } else if DecodeHead(s).Some? {
      var n := DecodeHead(s).value.length;
      assert s == s[..n] + s[n..];
      assert EscapesOnly(s, n);
      OrdinaryPersists(s[n..], c);
    }
  }

  // ---------- Decoding again and again ----------

  function Iterate(s: string, n: nat): Option<string> {
    if n == 0 then Some(s)
    else
      var before := Iterate(s, n - 1);
      if before.None? then None else Decode(before.value)
  }

  predicate BadCharacter(c: char) {
    c == '/' || c == '\\' || c as int <= 0x20 || c as int == 0x7F
  }

  predicate Harmless(s: string) {
    s != ".." && forall c <- s :: !BadCharacter(c)
  }

  predicate RawWellFormed(s: string) {
    forall i :: 0 <= i < |s| && s[i] == '%' ==> EscapeAt(s, i)
  }

  /** After `n` decodings nothing is left to decode, and the result is harmless. */
  predicate SettlesAt(s: string, n: nat) {
    && Iterate(s, n).Some?
    && !HasEscape(Iterate(s, n).value)
    && Harmless(Iterate(s, n).value)
  }

  ghost predicate SafeSegment(s: string) {
    RawWellFormed(s) && exists n :: 0 <= n <= 7 && SettlesAt(s, n)
  }

  lemma {:induction false} FailureLasts(s: string, n: nat, m: nat)
    requires n <= m && Iterate(s, n).None?
    ensures Iterate(s, m).None?
  {
    if n < m {
      FailureLasts(s, n, m - 1);
    }
  }

  lemma {:induction false} HarmLasts(s: string, n: nat, m: nat)
    requires n <= m && Iterate(s, n).Some? && !Harmless(Iterate(s, n).value)
    ensures Iterate(s, m).Some? ==> !Harmless(Iterate(s, m).value)
  {
    if n < m {
      HarmLasts(s, n, m - 1);
      if Iterate(s, m).Some? {
        var before := Iterate(s, m - 1).value;
        if before == ".." {
          EscapeFreeIsFixed(before);
        } else {
          var c :| c in before && BadCharacter(c);
          OrdinaryPersists(before, c);
        }
      }
    }
  }

  method AssertSafePathSegment(segment: string) returns (safe: bool)
    ensures safe <==> SafeSegment(segment)
  {
    if !RawWellFormed(segment) { return false; }
    var current := segment;
    for depth := 0 to 8
      invariant Iterate(segment, depth) == Some(current)
      invariant forall n :: 0 <= n < depth ==> !SettlesAt(segment, n)
    {
      if !Harmless(current) {
        forall n | 0 <= n <= 7 ensures !SettlesAt(segment, n) {
          if depth <= n { HarmLasts(segment, depth, n); }
        }
        return false;
      }
      if !HasEscape(current) {
        assert SettlesAt(segment, depth);
        return true;
      }
      var decoded := Decode(current);
      assert Iterate(segment, depth + 1) == decoded;
      if decoded.None? {
        forall n | 0 <= n <= 7 ensures !SettlesAt(segment, n) {
          if depth < n { FailureLasts(segment, depth + 1, n); }
        }
        return false;
      }
      current := decoded.value;
    }
    return false;
  }

  /** Escapes left after seven decodings need a segment of at least seventeen characters. */
  lemma {:induction false} DeepEscapesAreLong(s: string, n: nat)
    requires Iterate(s, n).Some? && HasEscape(Iterate(s, n).value)
    ensures |s| >= 2 * n + 3
    ensures |Iterate(s, n).value| + 2 * n <= |s|
  {
    if n == 0 {
      var i :| 0 <= i < |s| && EscapeAt(s, i);
    } else {
      var before := Iterate(s, n - 1).value;
      if !HasEscape(before) {
        EscapeFreeIsFixed(before);
      }
      DeepEscapesAreLong(s, n - 1);
      DecodeShortens(before);
      var t := Iterate(s, n).value;
      var i :| 0 <= i < |t| && EscapeAt(t, i);
    }
  }

  /** A well-formed segment shorter than that is judged by its fully decoded form alone. */
  lemma {:induction false} DepthLimitIsRemote(s: string)
    requires RawWellFormed(s) && |s| < 17
    ensures SafeSegment(s) <==> exists n: nat :: SettlesAt(s, n)
  {
    if n: nat :| SettlesAt(s, n) {
      if n > 7 {
        Earlier(s, n);
      }
    }
  }

  lemma {:induction false} Earlier(s: string, n: nat)
    requires |s| < 17 && SettlesAt(s, n)
    ensures exists m :: 0 <= m <= 7 && SettlesAt(s, m)
  {
    if n <= 7 {
      assert SettlesAt(s, n);
    } else {
      var before := Iterate(s, n - 1).value;
      if HasEscape(before) {
        DeepEscapesAreLong(s, n - 1);
        assert false;
      } else {
        EscapeFreeIsFixed(before);
        assert SettlesAt(s, n - 1);
        Earlier(s, n - 1);
      }
    }
  }

  // ---------- Paths ----------

  function SplitSlash(s: string): (r: seq<string>)
    ensures r != []
  {
    if s == "" then [""]
    else if s[0] == '/' then [""] + SplitSlash(s[1..])
    else
      var rest := SplitSlash(s[1..]);
      [[s[0]] + rest[0]] + rest[1..]
  }

  /** The segments after the leading slash, without an empty one at the end. */
  function PathSegments(path: string): seq<string> {
    var segments := SplitSlash(path)[1..];
    if segments != [] && segments[|segments| - 1] == "" then segments[..|segments| - 1] else segments
  }

  lemma {:induction false} SplitStep(a: string, rest: string)
    requires '/' !in a
    ensures SplitSlash(a) == [a] && SplitSlash(a + ("/" + rest)) == [a] + SplitSlash(rest)
  {
    var s := a + ("/" + rest);
    if a == "" {
      assert s[0] == '/' && s[1..] == rest;
    } else {
      assert a[0] in a && forall c <- a[1..] :: c in a;
      SplitStep(a[1..], rest);
      assert s[0] == a[0] && s[1..] == a[1..] + ("/" + rest);
      assert a == [a[0]] + a[1..];
    }
  }

  /** Segments joined by slashes are split into just these. */
  lemma {:induction false} SplitJoined(segments: seq<string>)
    requires segments != [] && forall s <- segments :: '/' !in s
    ensures SplitSlash(Join(segments, "/")) == segments
  {
    assert segments[0] in segments;
    SplitStep(segments[0], Join(segments[1..], "/"));
    if |segments| > 1 {
      SplitJoined(segments[1..]);
      assert Join(segments, "/") == segments[0] + ("/" + Join(segments[1..], "/"));
    }
  }

  /** An absolute path gives its segments, with or without a slash at the end. */
  lemma {:induction false} PathReadsBack(segments: seq<string>)
    requires segments != [] && (forall s <- segments :: '/' !in s) && segments[|segments| - 1] != ""
    ensures PathSegments("/" + Join(segments, "/")) == segments
    ensures PathSegments("/" + Join(segments + [""], "/")) == segments
  {
    SplitJoined(segments);
    SplitJoined(segments + [""]);
    SplitStep("", Join(segments, "/"));
    SplitStep("", Join(segments + [""], "/"));
    assert "" + ("/" + Join(segments, "/")) == "/" + Join(segments, "/");
    assert "" + ("/" + Join(segments + [""], "/")) == "/" + Join(segments + [""], "/");
    assert ([""] + segments)[1..] == segments;
    assert ([""] + (segments + [""]))[1..] == segments + [""];
    assert (segments + [""])[..|segments|] == segments;
  }

  function DecodeAll(segments: seq<string>): (r: Option<seq<string>>)
    ensures r.Some? ==> |r.value| == |segments|
    ensures r.Some? ==> forall i :: 0 <= i < |segments| ==> Decode(segments[i]) == Some(r.value[i])
    ensures r.None? ==> exists s :: s in segments && Decode(s).None?
  {
    if segments == [] then Some([])
    else
      var first, rest := Decode(segments[0]), DecodeAll(segments[1..]);
      assert segments[0] in segments;
      if first.None? || rest.None? then None else Some([first.value] + rest.value)
  }

  /** `None` when a segment cannot be decoded. */
  function IsPathWithinScope(path: string, scope: string): Option<bool> {
    var request, allowed := DecodeAll(PathSegments(path)), DecodeAll(PathSegments(scope));
    if request.None? || allowed.None? then None else Some(allowed.value <= request.value)
  }

  /** A decoded path spelt out, every segment closed by a slash. */
  function Spelt(segments: seq<string>): string {
    if segments == [] then "" else segments[0] + ("/" + Spelt(segments[1..]))
  }

  ghost predicate SafePath(path: string) {
    forall segment <- PathSegments(path) :: SafeSegment(segment)
  }

  method AssertSafeSegments(path: string) returns (safe: bool)
    ensures safe <==> forall segment <- SplitSlash(path) :: SafeSegment(segment)
    ensures safe ==> SafePath(path)
  {
    var segments := SplitSlash(path);
    for i := 0 to |segments|
      invariant forall j :: 0 <= j < i ==> SafeSegment(segments[j])
    {
      safe := AssertSafePathSegment(segments[i]);
      if !safe { return; }
    }
    safe := true;
  }

  predicate Plain(segment: string) {
    '/' !in segment && segment != ".."
  }

  /** What passed the check decodes, and to a single step downwards. */
  lemma {:induction false} SafeSegmentDecodes(s: string)
    requires SafeSegment(s)
    ensures Decode(s).Some? && Plain(Decode(s).value)
  {
    var n :| 0 <= n <= 7 && SettlesAt(s, n);
    assert Iterate(s, 0) == Some(s);
    if n == 0 {
      forall i | 0 <= i < |s| ensures s[i] != '%' {
        assert !EscapeAt(s, i);
      }
      EscapeFreeIsFixed(s);
      assert '/' in s ==> BadCharacter('/');
    } else {
      if Decode(s).None? {
        assert Iterate(s, 1).None?;
        FailureLasts(s, 1, n);
      } else {
        assert Iterate(s, 1) == Decode(s);
        if !Plain(Decode(s).value) {
          assert '/' in Decode(s).value ==> BadCharacter('/');
          HarmLasts(s, 1, n);
        }
      }
    }
  }

  lemma {:induction false} SafePathDecodes(path: string)
    requires SafePath(path)
    ensures DecodeAll(PathSegments(path)).Some?
    ensures forall segment <- DecodeAll(PathSegments(path)).value :: Plain(segment)
  {
    var segments := PathSegments(path);
    forall i | 0 <= i < |segments| ensures Decode(segments[i]).Some? && Plain(Decode(segments[i]).value) {
      SafeSegmentDecodes(segments[i]);
    }
  }

  lemma {:induction false} SameCut(a: string, x: string, b: string, y: string)
    requires '/' !in a && '/' !in b
    requires a + ("/" + x) <= b + ("/" + y)
    ensures a == b && x <= y
  {
    var u, v := a + ("/" + x), b + ("/" + y);
    assert u[|a|] == '/' && v[|b|] == '/' && v[..|u|] == u;
    if |a| < |b| {
      assert false;
    }
    if |b| < |a| {
      assert false;
    }
    assert a == u[..|a|] == v[..|a|] == b;
    assert x == u[|a| + 1..] && y == v[|a| + 1..];
  }

  lemma {:induction false} PrefixBySegments(scope: seq<string>, request: seq<string>)
    requires (forall s <- scope :: '/' !in s) && (forall s <- request :: '/' !in s)
    ensures scope <= request <==> Spelt(scope) <= Spelt(request)
  {
    if scope != [] && request != [] {
      assert scope[0] in scope && request[0] in request;
      PrefixBySegments(scope[1..], request[1..]);
      if Spelt(scope) <= Spelt(request) {
        SameCut(scope[0], Spelt(scope[1..]), request[0], Spelt(request[1..]));
        assert scope == [scope[0]] + scope[1..] && request == [request[0]] + request[1..];
      }
      if scope <= request {
        assert scope[1..] <= request[1..];
        assert scope[0] == request[0];
      }
    }
  }

  /** For checked paths the comparison never throws, and segments in scope mean exactly that
      the decoded request starts with the decoded scope, cut at a slash. */
  lemma {:induction false} WithinScopeMeansBelow(path: string, scope: string)
    requires SafePath(path) && SafePath(scope)
    ensures var request, allowed := DecodeAll(PathSegments(path)), DecodeAll(PathSegments(scope));
      request.Some? && allowed.Some?
      && IsPathWithinScope(path, scope) == Some(Spelt(allowed.value) <= Spelt(request.value))
  {
    SafePathDecodes(path);
    SafePathDecodes(scope);
    PrefixBySegments(DecodeAll(PathSegments(scope)).value, DecodeAll(PathSegments(path)).value);
  }
}
