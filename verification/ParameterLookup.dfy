/** The two lookups of a single parameter, which cut a header at every semicolon and so may
    read something other than the scanners do, and exactly when. */
module ParameterLookup {
  import opened Common
  import opened HeaderScan

  /** `header.split(';')`, as the single-parameter lookups use it. */
  function NaiveSegments(h: string): (r: seq<string>)
    ensures r != []
    decreases |h|
  {
    var k := IndexOf(h, ';');
    if k == |h| then [h] else [h[..k]] + NaiveSegments(h[k + 1..])
  }

  predicate NoQuotedSemicolon(h: string) {
    forall i :: 0 <= i < |h| && h[i] == ';' ==> !QuotedAt(h, i)
  }

  lemma {:induction false} AfterCut(h: string, k: nat)
    requires k < |h| && OpenAt(h, ';', k) && forall j :: 0 <= j < k ==> h[j] != ';'
    ensures NoQuotedSemicolon(h) <==> NoQuotedSemicolon(h[k + 1..])
  {
    var rest := h[k + 1..];
    forall j | 0 <= j < k ensures !OpenAt(h, ';', j) {
    }
    ClosedHead(h, ';', k);
    CutAt(h[..k], ';', rest);
    forall j | 0 <= j < |rest| ensures rest[j] == h[k + 1 + j] && QuotedAt(h, k + 1 + j) == QuotedAt(rest, j) {
    }
    if NoQuotedSemicolon(rest) {
      forall i | 0 <= i < |h| && h[i] == ';' ensures !QuotedAt(h, i) {
        if i > k {
          assert rest[i - k - 1] == h[i];
        }
      }
    }
  }

  /** The two ways of splitting agree exactly on the headers with no semicolon inside quotes. */
  lemma {:induction false} NaiveAgrees(h: string)
    ensures NaiveSegments(h) == Segments(h) <==> NoQuotedSemicolon(h)
    decreases |h|
  {
    var k, n := IndexOf(h, ';'), NextOpen(h, ';', 0);
    if k == |h| {
      assert n == |h|;
    } else if QuotedAt(h, k) {
      assert n > k;
      assert |NaiveSegments(h)[0]| == k && |Segments(h)[0]| == n;
    } else {
      assert OpenAt(h, ';', k);
      assert n == k;
      NaiveAgrees(h[k + 1..]);
      AfterCut(h, k);
      assert Segments(h)[1..] == Segments(h[k + 1..]) && NaiveSegments(h)[1..] == NaiveSegments(h[k + 1..]);
    }
  }

  // ---------- The lookups ----------

  /** `item.split('=', 1)[0].trim().toLowerCase()`: also the name the scanner gives an item. */
  function ItemName(item: string): string {
    Lower(Trim(item[..IndexOf(item, '=')]))
  }

  function Find(items: seq<string>, name: string): Option<string> {
    if items == [] then None else if ItemName(items[0]) == name then Some(items[0]) else Find(items[1..], name)
  }

  /** `replace(/^"|"$/g, '')`: a quote at either end goes, whatever the other end has. */
  function Strip(raw: string): string {
    var rest := if raw != "" && raw[0] == '"' then raw[1..] else raw;
    if rest != "" && rest[|rest| - 1] == '"' then rest[..|rest| - 1] else rest
  }

  function RawValue(item: string): string
    requires '=' in item
  {
    item[IndexOf(item, '=') + 1..]
  }

  function ItemValue(item: string): Option<string> {
    if '=' in item then Some(Strip(RawValue(item))) else None
  }

  function CalendarParameterValue(header: string, name: string): Option<string> {
    var item := Find(NaiveSegments(header)[1..], name);
    if item.None? then None else ItemValue(item.value)
  }

  predicate HasCalendarParameter(header: string, name: string) {
    Find(NaiveSegments(header)[1..], name).Some?
  }

  // ---------- What the scanner says ----------

  function Named(parameters: seq<Parameter>, name: string): Option<Parameter> {
    if parameters == [] then None
    else if parameters[0].name == name then Some(parameters[0])
    else Named(parameters[1..], name)
  }

  /** The first parameter of that name among those `ContentLineParameters` gives. */
  function Scanned(header: string, name: string): Option<Parameter> {
    Named(ParametersOf(Segments(header)[1..]), name)
  }

  function ScannedValue(header: string, name: string): Option<string> {
    var parameter := Scanned(header, name);
    if parameter.None? then None else parameter.value.value
  }

  lemma {:induction false} NamedIsFound(items: seq<string>, name: string)
    ensures Named(ParametersOf(items), name)
         == if Find(items, name).None? then None else Some(ParameterOf(Find(items, name).value))
  {
    if items != [] {
      assert ParametersOf(items)[1..] == ParametersOf(items[1..]);
      NamedIsFound(items[1..], name);
    }
  }

  // ---------- Items as pieces of segments ----------

  /** Every segment cut further at the semicolons it holds, all of them quoted. */
  function Pieces(segments: seq<string>): seq<string> {
    if segments == [] then [] else NaiveSegments(segments[0]) + Pieces(segments[1..])
  }

  lemma {:induction false} JoinedSlices(a: string, b: string, k: nat)
    requires k < |a|
    ensures var h := a + (";" + b);
      h[k] == a[k] && h[..k] == a[..k] && h[k + 1..] == a[k + 1..] + (";" + b)
  {
  }

  lemma {:induction false} JoinedFirst(a: string, b: string)
    ensures IndexOf(a + (";" + b), ';') == IndexOf(a, ';')
  {
    var h := a + (";" + b);
    assert h[|a|] == ';' && forall j :: 0 <= j < |a| ==> h[j] == a[j];
  }

  lemma {:induction false} NaiveStep(h: string, first: string, rest: string)
    requires IndexOf(h, ';') == |first| < |h| && h[..|first|] == first && h[|first| + 1..] == rest
    ensures NaiveSegments(h) == [first] + NaiveSegments(rest)
  {
  }

  lemma {:induction false} Grouped(x: string, a: seq<string>, b: seq<string>)
    ensures [x] + (a + b) == ([x] + a) + b
  {
  }

  lemma {:induction false} NaiveCut(a: string, b: string)
    ensures NaiveSegments(a + (";" + b)) == NaiveSegments(a) + NaiveSegments(b)
    decreases |a|
  {
    var h, k := a + (";" + b), IndexOf(a, ';');
    JoinedFirst(a, b);
    if k == |a| {
      NaiveStep(h, a, b);
    } else {
      var rest := a[k + 1..];
      JoinedSlices(a, b, k);
      NaiveStep(h, a[..k], rest + (";" + b));
      NaiveStep(a, a[..k], rest);
      NaiveCut(rest, b);
      Grouped(a[..k], NaiveSegments(rest), NaiveSegments(b));
    }
  }

  lemma {:induction false} NaiveIsPieces(h: string)
    ensures NaiveSegments(h) == Pieces(Segments(h))
    decreases |h|
  {
    var k := NextOpen(h, ';', 0);
    if k == |h| {
      assert Segments(h)[1..] == [];
      assert Pieces(Segments(h)) == NaiveSegments(h) + [];
    } else {
      assert h == h[..k] + (";" + h[k + 1..]);
      NaiveCut(h[..k], h[k + 1..]);
      NaiveIsPieces(h[k + 1..]);
      assert Segments(h)[0] == h[..k] && Segments(h)[1..] == Segments(h[k + 1..]);
    }
  }

  lemma {:induction false} NaiveItems(h: string)
    ensures NaiveSegments(h)[1..] == NaiveSegments(Segments(h)[0])[1..] + Pieces(Segments(h)[1..])
  {
    NaiveIsPieces(h);
  }

  lemma {:induction false} FindConcat(a: seq<string>, b: seq<string>, name: string)
    ensures Find(a + b, name) == if Find(a, name).Some? then Find(a, name) else Find(b, name)
  {
    if a == [] {
      assert a + b == b;
    } else {
      assert (a + b)[1..] == a[1..] + b;
      FindConcat(a[1..], b, name);
    }
  }

  // ---------- Where a lookup reads ----------

  /** The item a lookup settles on: none; a whole parameter; the start of a parameter cut at a
      quoted semicolon; or what stands after such a semicolon; and in the last two cases the
      segments that follow. */
  datatype Origin =
    | Nowhere
    | Whole(item: string)
    | Start(item: string, later: seq<string>)
    | Inside(item: string, later: seq<string>)

  function OriginAmong(segments: seq<string>, name: string): Origin {
    if segments == [] then Nowhere
    else
      var s := segments[0];
      if ItemName(NaiveSegments(s)[0]) == name then
        (if ';' in s then Start(NaiveSegments(s)[0], segments[1..]) else Whole(s))
      else if Find(NaiveSegments(s)[1..], name).Some? then
        Inside(Find(NaiveSegments(s)[1..], name).value, segments[1..])
      else OriginAmong(segments[1..], name)
  }

  function OriginOf(h: string, name: string): Origin {
    var extra := Find(NaiveSegments(Segments(h)[0])[1..], name);
    if extra.Some? then Inside(extra.value, Segments(h)[1..]) else OriginAmong(Segments(h)[1..], name)
  }

  function ItemOf(origin: Origin): Option<string> {
    if origin.Nowhere? then None else Some(origin.item)
  }

  lemma {:induction false} OriginIsFound(segments: seq<string>, name: string)
    ensures Find(Pieces(segments), name) == ItemOf(OriginAmong(segments, name))
  {
    if segments != [] {
      var pieces := NaiveSegments(segments[0]);
      FindConcat(pieces, Pieces(segments[1..]), name);
      OriginIsFound(segments[1..], name);
      OnePiece(segments[0]);
    }
  }

  lemma {:induction false} OnePiece(s: string)
    ensures ';' !in s ==> NaiveSegments(s) == [s]
    ensures ';' !in NaiveSegments(s)[0] && NaiveSegments(s)[0] <= s
    ensures ';' in s ==> NaiveSegments(s)[0] + ";" <= s
  {
    var k := IndexOf(s, ';');
    assert k < |s| ==> s[..k + 1] == s[..k] + ";";
  }

  lemma {:induction false} LookupReads(h: string, name: string)
    ensures Find(NaiveSegments(h)[1..], name) == ItemOf(OriginOf(h, name))
  {
    NaiveItems(h);
    FindConcat(NaiveSegments(Segments(h)[0])[1..], Pieces(Segments(h)[1..]), name);
    OriginIsFound(Segments(h)[1..], name);
  }

  // ---------- Names and semicolons ----------

  lemma {:induction false} LowerKeeps(s: string, c: char)
    requires !('A' <= c <= 'Z') && !('a' <= c <= 'z')
    ensures c in Lower(s) <==> c in s
  {
    if s != "" {
      LowerKeeps(s[1..], c);
      assert s == [s[0]] + s[1..];
      assert Lower(s) == [Lower(s)[0]] + Lower(s[1..]);
    }
  }

  lemma {:induction false} TrimStartKeepsChar(s: string, c: char)
    requires !Blank(c)
    ensures c in TrimStart(s) <==> c in s
  {
    if s != "" && Blank(s[0]) {
      TrimStartKeepsChar(s[1..], c);
      assert s == [s[0]] + s[1..];
    }
  }

  lemma {:induction false} TrimEndKeepsChar(s: string, c: char)
    requires !Blank(c)
    ensures c in TrimEnd(s) <==> c in s
  {
    if s != "" && Blank(s[|s| - 1]) {
      TrimEndKeepsChar(s[..|s| - 1], c);
      assert s == s[..|s| - 1] + [s[|s| - 1]];
    }
  }

  lemma {:induction false} TrimKeeps(s: string, c: char)
    requires !Blank(c)
    ensures c in Trim(s) <==> c in s
  {
    TrimStartKeepsChar(s, c);
    TrimEndKeepsChar(TrimStart(s), c);
  }

  lemma {:induction false} NameKeepsSemicolon(item: string)
    ensures ';' in ItemName(item) <==> ';' in item[..IndexOf(item, '=')]
  {
    var name := item[..IndexOf(item, '=')];
    TrimKeeps(name, ';');
    LowerKeeps(Trim(name), ';');
  }

  /** A segment cut at a semicolon keeps its name in its first piece if the name has none. */
  lemma {:induction false} FirstPieceName(s: string)
    requires ';' in s
    ensures var p := NaiveSegments(s)[0];
      && (';' !in ItemName(s) ==> ItemName(p) == ItemName(s) && '=' in p)
      && ('=' in p ==> ItemName(p) == ItemName(s) && '=' in s && RawValue(p) + ";" <= RawValue(s))
  {
    if IndexOf(s, ';') < IndexOf(s, '=') {
      CutInName(s);
    } else {
      CutInValue(s);
    }
  }

  lemma {:induction false} CutInName(s: string)
    requires IndexOf(s, ';') < IndexOf(s, '=')
    ensures ';' in ItemName(s) && '=' !in NaiveSegments(s)[0]
  {
    NameKeepsSemicolon(s);
    assert s[..IndexOf(s, '=')][IndexOf(s, ';')] == ';';
  }

  lemma {:induction false} CutInValue(s: string)
    requires IndexOf(s, '=') < IndexOf(s, ';') < |s|
    ensures var p := NaiveSegments(s)[0];
      '=' in p && '=' in s && ItemName(p) == ItemName(s) && RawValue(p) + ";" <= RawValue(s)
  {
    var k, e := IndexOf(s, ';'), IndexOf(s, '=');
    var p := s[..k];
    assert p[e] == '=' && forall j :: 0 <= j < e ==> p[j] == s[j];
    assert IndexOf(p, '=') == e;
    assert p[..e] == s[..e];
    SliceUpTo(s, e, k);
  }

  lemma {:induction false} SliceUpTo(s: string, e: nat, k: nat)
    requires e < k < |s| && s[k] == ';'
    ensures s[..k][e + 1..] + ";" <= s[e + 1..]
  {
    var value, cut := s[e + 1..], s[..k][e + 1..];
    assert |cut| == k - e - 1 && value[|cut|] == ';';
    forall j | 0 <= j < |cut| ensures cut[j] == value[j] {
    }
  }

  /** Items are free of semicolons, and so are their names. */
  lemma {:induction false} ItemsPlain(h: string, item: string)
    requires item in NaiveSegments(h)
    ensures ';' !in item && ';' !in ItemName(item)
    decreases |h|
  {
    var k := IndexOf(h, ';');
    NameKeepsSemicolon(item);
    if k < |h| && item != h[..k] {
      ItemsPlain(h[k + 1..], item);
    }
  }

  lemma {:induction false} FoundItem(items: seq<string>, name: string)
    ensures Find(items, name).Some? ==> Find(items, name).value in items && ItemName(Find(items, name).value) == name
    ensures Find(items, name).None? ==> forall item <- items :: ItemName(item) != name
  {
    if items != [] {
      FoundItem(items[1..], name);
    }
  }

  /** What the first piece of a segment says of the name of the whole segment. */
  lemma {:induction false} PieceAndSegment(s: string, name: string)
    requires ';' !in name
    ensures var p := NaiveSegments(s)[0];
      && (ItemName(p) != name ==> ItemName(s) != name)
      && (';' !in s ==> NaiveSegments(s) == [s])
      && (';' in s && ItemName(p) == name ==>
            if '=' in p then ItemName(s) == name && '=' in s && RawValue(p) + ";" <= RawValue(s)
            else ItemName(s) != name)
  {
    OnePiece(s);
    if ';' in s {
      FirstPieceName(s);
    }
  }

  /** Where the scanner's parameter is when a lookup has settled on an item: nowhere, at that
      item, or in the segments after it. */
  predicate Located(origin: Origin, found: Option<string>, name: string) {
    match origin
    case Nowhere => found.None?
    case Whole(item) => found == Some(item)
    case Start(item, later) =>
      if '=' in item then found.Some? && '=' in found.value && RawValue(item) + ";" <= RawValue(found.value)
      else found == Find(later, name)
    case Inside(item, later) => found == Find(later, name)
  }

  lemma {:induction false} OriginLocates(segments: seq<string>, name: string)
    requires ';' !in name
    ensures Located(OriginAmong(segments, name), Find(segments, name), name)
  {
    if segments != [] {
      PieceAndSegment(segments[0], name);
      OriginLocates(segments[1..], name);
    }
  }

  // ---------- When the value is the scanner's ----------

  predicate Quote(c: char) {
    c == '"'
  }

  /** No blanks at the ends, and quotes at both ends or at none. */
  predicate Neat(raw: string) {
    raw == "" || (!Blank(raw[0]) && !Blank(raw[|raw| - 1]) && raw != "\"" && (Quote(raw[0]) <==> Quote(raw[|raw| - 1])))
  }

  lemma {:induction false} TrimEnds(raw: string)
    ensures |Trim(raw)| <= |raw|
    ensures Trim(raw) != "" ==> !Blank(Trim(raw)[0]) && !Blank(Trim(raw)[|Trim(raw)| - 1])
    ensures raw != "" && (Blank(raw[0]) || Blank(raw[|raw| - 1])) ==> |Trim(raw)| < |raw|
  {
    TrimStartEnds(raw);
    TrimEndEnds(TrimStart(raw));
  }

  lemma {:induction false} TrimStartEnds(raw: string)
    ensures |TrimStart(raw)| <= |raw| && (TrimStart(raw) != "" ==> !Blank(TrimStart(raw)[0]))
    ensures if raw != "" && Blank(raw[0]) then |TrimStart(raw)| < |raw| else TrimStart(raw) == raw
  {
    if raw != "" && Blank(raw[0]) {
      TrimStartEnds(raw[1..]);
    }
  }

  lemma {:induction false} TrimEndEnds(raw: string)
    ensures TrimEnd(raw) <= raw
    ensures TrimEnd(raw) != "" ==> TrimEnd(raw)[0] == raw[0] && !Blank(TrimEnd(raw)[|TrimEnd(raw)| - 1])
    ensures raw != "" && Blank(raw[|raw| - 1]) ==> |TrimEnd(raw)| < |raw|
  {
    if raw != "" && Blank(raw[|raw| - 1]) {
      TrimEndEnds(raw[..|raw| - 1]);
    }
  }

  /** The two ways of taking quotes off agree exactly on neat values. */
  lemma {:induction false} NeatValuesAgree(raw: string)
    ensures Unquote(Trim(raw)) == Strip(raw) <==> Neat(raw)
  {
    TrimEnds(raw);
    if raw != "" && !Blank(raw[0]) && !Blank(raw[|raw| - 1]) {
      assert Trim(raw) == raw;
    }
  }

  lemma {:induction false} UnquoteKeepsSemicolon(raw: string)
    ensures ';' in raw ==> ';' in Unquote(raw)
    ensures ';' !in raw ==> ';' !in Strip(raw)
  {
    if ';' in raw && Unquote(raw) != raw {
      assert raw == [raw[0]] + Unquote(raw) + [raw[|raw| - 1]];
    }
  }

  /** No such parameter, or one without a value. */
  predicate NoValue(found: Option<string>) {
    found.Some? ==> '=' !in found.value
  }

  /** The parameter has a value and reads as this item does. */
  predicate Repeats(segment: string, item: string) {
    '=' in segment && '=' in item && Unquote(Trim(RawValue(segment))) == Strip(RawValue(item))
  }

  /** The value the scanner gives to the parameter it found. */
  function ReadValue(found: Option<string>): Option<string> {
    if found.None? then None else ParameterOf(found.value).value
  }

  /** A parameter that no quoted semicolon touches must be neat. The start of a parameter that one
      cuts must have no value, and then a later parameter of the name neither. Text behind a
      quoted semicolon must be repeated by a later parameter of the name, and if there is none, or
      none with a value, have no value. */
  predicate ReadsAlike(origin: Origin, name: string) {
    match origin
    case Nowhere => true
    case Whole(item) => '=' in item ==> Neat(RawValue(item))
    case Start(item, later) => '=' !in item && NoValue(Find(later, name))
    case Inside(item, later) =>
      if NoValue(Find(later, name)) then '=' !in item else Repeats(Find(later, name).value, item)
  }

  lemma {:induction false} LocatedAgrees(origin: Origin, found: Option<string>, name: string)
    requires Located(origin, found, name) && (origin.Start? ==> ';' !in origin.item)
    ensures (if origin.Nowhere? then None else ItemValue(origin.item)) == ReadValue(found) <==> ReadsAlike(origin, name)
  {
    if origin.Whole? && '=' in origin.item {
      NeatValuesAgree(RawValue(origin.item));
    }
    if origin.Start? && '=' in origin.item {
      CutValueDiffers(RawValue(origin.item), RawValue(found.value));
    }
  }

  /** Exactly when a lookup returns the scanner's value: by the item it settles on and the
      parameters that follow it, or, for a name with a semicolon, which no item has, when the
      scanner finds no value either. */
  lemma {:induction false} LookupAgrees(h: string, name: string)
    ensures CalendarParameterValue(h, name) == ScannedValue(h, name)
      <==> if ';' in name then NoValue(Find(Segments(h)[1..], name)) else ReadsAlike(OriginOf(h, name), name)
  {
    LookupReads(h, name);
    NamedIsFound(Segments(h)[1..], name);
    if ';' in name {
      NoItemHasSemicolon(h, name);
    } else {
      OriginLocates(Segments(h)[1..], name);
      var origin := OriginOf(h, name);
      if origin.Start? {
        LookupItemPlain(h, name);
      }
      LocatedAgrees(origin, Find(Segments(h)[1..], name), name);
    }
  }

  /** On a header with no quoted semicolon, they agree exactly when the first item of the name
      has no value or a neat one. */
  lemma {:induction false} PlainLookupAgrees(h: string, name: string)
    requires NoQuotedSemicolon(h)
    ensures var found := Find(NaiveSegments(h)[1..], name);
      CalendarParameterValue(h, name) == ScannedValue(h, name) <==> NoValue(found) || Neat(RawValue(found.value))
  {
    NaiveAgrees(h);
    var found := Find(NaiveSegments(h)[1..], name);
    NamedIsFound(Segments(h)[1..], name);
    if !NoValue(found) {
      NeatValuesAgree(RawValue(found.value));
    }
  }

  lemma {:induction false} NoItemHasSemicolon(h: string, name: string)
    requires ';' in name
    ensures Find(NaiveSegments(h)[1..], name).None?
  {
    var items := NaiveSegments(h)[1..];
    FoundItem(items, name);
    if Find(items, name).Some? {
      assert Find(items, name).value in NaiveSegments(h);
      ItemsPlain(h, Find(items, name).value);
    }
  }

  lemma {:induction false} LookupItemPlain(h: string, name: string)
    requires Find(NaiveSegments(h)[1..], name).Some?
    ensures ';' !in Find(NaiveSegments(h)[1..], name).value
  {
    var items := NaiveSegments(h)[1..];
    FoundItem(items, name);
    assert Find(items, name).value in NaiveSegments(h);
    ItemsPlain(h, Find(items, name).value);
  }

  /** The value of a cut parameter lacks the semicolon it was cut at. */
  lemma {:induction false} CutValueDiffers(cut: string, whole: string)
    requires cut + ";" <= whole
    ensures ';' !in cut ==> Strip(cut) != Unquote(Trim(whole))
  {
    assert whole[|cut|] == ';';
    TrimKeeps(whole, ';');
    UnquoteKeepsSemicolon(Trim(whole));
    UnquoteKeepsSemicolon(cut);
  }

  // ---------- When the presence is the scanner's ----------

  /** What the lookups see of segments that hold a quoted semicolon: all of their pieces. */
  function Fragments(segments: seq<string>): seq<string> {
    if segments == [] then []
    else (if ';' in segments[0] then NaiveSegments(segments[0]) else []) + Fragments(segments[1..])
  }

  /** The same for a header, whose first segment is the property with one piece to itself. */
  function HeaderFragments(h: string): seq<string> {
    NaiveSegments(Segments(h)[0])[1..] + Fragments(Segments(h)[1..])
  }

  lemma {:induction false} PiecesHave(segments: seq<string>, name: string)
    ensures Find(Pieces(segments), name).Some?
      <==> (';' !in name && Find(segments, name).Some?) || Find(Fragments(segments), name).Some?
  {
    if segments != [] {
      var s, rest := segments[0], segments[1..];
      PiecesHave(rest, name);
      FindConcat(NaiveSegments(s), Pieces(rest), name);
      OnePiece(s);
      if ';' in s {
        FirstPieceName(s);
        FindConcat(NaiveSegments(s), Fragments(rest), name);
      } else {
        assert [] + Fragments(rest) == Fragments(rest);
        NameKeepsSemicolon(s);
      }
    }
  }

  /** A lookup finds a name when the scanner does, if the name has no semicolon, and also when a
      fragment spells it. */
  lemma {:induction false} HasMeans(h: string, name: string)
    ensures HasCalendarParameter(h, name)
      <==> (';' !in name && Scanned(h, name).Some?) || Find(HeaderFragments(h), name).Some?
  {
    NaiveItems(h);
    var extra, rest := NaiveSegments(Segments(h)[0])[1..], Segments(h)[1..];
    FindConcat(extra, Pieces(rest), name);
    FindConcat(extra, Fragments(rest), name);
    PiecesHave(rest, name);
    NamedIsFound(rest, name);
  }

  /** Every parameter the scanner sees has a name without semicolon, and every fragment has the
      name of such a parameter. */
  ghost predicate NamesKept(h: string) {
    && (forall name :: Scanned(h, name).Some? ==> ';' !in name)
    && (forall name :: Find(HeaderFragments(h), name).Some? ==> Scanned(h, name).Some?)
  }

  /** The lookups and the scanner see the same set of names exactly when names are kept. */
  lemma {:induction false} HasAgreesExactly(h: string)
    ensures (forall name :: HasCalendarParameter(h, name) <==> Scanned(h, name).Some?) <==> NamesKept(h)
  {
    forall name ensures HasCalendarParameter(h, name)
        <==> (';' !in name && Scanned(h, name).Some?) || Find(HeaderFragments(h), name).Some? {
      HasMeans(h, name);
    }
    forall name | Find(HeaderFragments(h), name).Some? ensures ';' !in name {
      FragmentNames(h, name);
    }
  }

  lemma {:induction false} FragmentNames(h: string, name: string)
    requires Find(HeaderFragments(h), name).Some?
    ensures ';' !in name
  {
    HasMeans(h, name);
    if ';' in name {
      NoItemHasSemicolon(h, name);
    }
  }

  // ---------- Headers on which they differ ----------

  lemma {:induction false} TwoSegments(property: string, item: string)
    requires ';' !in property && '"' !in property && Closed(item, ';')
    ensures Segments(property + (";" + item)) == [property, item]
  {
    forall i | 0 <= i <= |property| ensures !QuotedAt(property, i) {
      NoQuotesNoQuoting(property, i);
    }
    assert Join([property, item], ";") == property + ";" + item == property + (";" + item);
    SplitJoin([property, item]);
  }

  /** A property and one item without semicolons are cut alike. */
  lemma {:induction false} OneItem(property: string, item: string)
    requires ';' !in property && '"' !in property && ';' !in item
    ensures var h := property + (";" + item);
      Segments(h) == [property, item] && NaiveSegments(h) == [property, item]
  {
    TwoSegments(property, item);
    NaiveCut(property, item);
    OnePiece(property);
    OnePiece(item);
  }

  lemma {:induction false} OneItemRead(property: string, item: string, name: string)
    requires ';' !in property && '"' !in property && ';' !in item && '=' in item && ItemName(item) == name
    ensures var h := property + (";" + item);
      && CalendarParameterValue(h, name) == Some(Strip(RawValue(item)))
      && ScannedValue(h, name) == Some(Unquote(Trim(RawValue(item))))
  {
    var h := property + (";" + item);
    OneItem(property, item);
    assert NaiveSegments(h)[1..] == [item] && Segments(h)[1..] == [item];
    NamedIsFound([item], name);
  }

  lemma {:induction false} ItemB(raw: string)
    ensures ItemName("B=" + raw) == "b" && '=' in "B=" + raw && RawValue("B=" + raw) == raw
  {
    var item := "B=" + raw;
    assert item[0] == 'B' && item[1] == '=';
    assert IndexOf(item, '=') == 1;
    assert item[..1] == "B";
    assert TrimStart("B") == "B" && TrimEnd("B") == "B";
    assert "B"[1..] == "";
  }

  /** A quote at one end only: the lookup drops it, the scanner keeps it. */
  lemma {:induction false} OneSidedQuoteDiffers()
    ensures CalendarParameterValue("A" + (";" + ("B=" + "\"x")), "b") == Some("x")
    ensures ScannedValue("A" + (";" + ("B=" + "\"x")), "b") == Some("\"x")
  {
    ItemB("\"x");
    OneItemRead("A", "B=" + "\"x", "b");
    assert "\"x"[1..] == "x";
    TrimIdle("\"x");
  }

  /** A blank in front of the value: the scanner drops it, the lookup keeps it. */
  lemma {:induction false} BlankDiffers()
    ensures CalendarParameterValue("A" + (";" + ("B=" + " x")), "b") == Some(" x")
    ensures ScannedValue("A" + (";" + ("B=" + " x")), "b") == Some("x")
  {
    ItemB(" x");
    OneItemRead("A", "B=" + " x", "b");
    assert " x"[1..] == "x";
    assert TrimStart(" x") == TrimStart("x") == "x";
    assert TrimEnd("x") == "x";
  }

  /** A property and one item that holds a quoted semicolon are cut differently. */
  lemma {:induction false} CutItem(property: string, item: string, a: string, b: string)
    requires ';' !in property && '"' !in property && Closed(item, ';')
    requires item == a + (";" + b) && ';' !in a && ';' !in b
    ensures var h := property + (";" + item);
      Segments(h) == [property, item] && NaiveSegments(h) == [property, a, b]
  {
    TwoSegments(property, item);
    NaiveCut(property, item);
    NaiveCut(a, b);
    OnePiece(property);
    OnePiece(a);
    OnePiece(b);
  }

  lemma {:induction false} CutItemHas(h: string, property: string, item: string, a: string, b: string, name: string)
    requires Segments(h) == [property, item] && NaiveSegments(h) == [property, a, b]
    requires ItemName(b) == name && ItemName(item) != name
    ensures HasCalendarParameter(h, name) && Scanned(h, name).None?
  {
    assert NaiveSegments(h)[1..] == [a, b] && [a, b][1..] == [b];
    assert Segments(h)[1..] == [item] && [item][1..] == [];
    NamedIsFound([item], name);
  }

  /** A quoted text that spells a parameter: the lookup finds one that is not there. */
  lemma {:induction false} QuotedNameFound()
    ensures var h := "A" + (";" + ("B=\"" + (";" + "c=\"")));
      HasCalendarParameter(h, "c") && Scanned(h, "c").None?
  {
    var item := "B=\"" + (";" + "c=\"");
    var raw := "\"" + ";c=" + "\"";
    assert item == "B" + ['='] + raw == "B=" + raw;
    RawValueScan(";c=", true);
    NameScan("B", raw);
    CutItem("A", item, "B=\"", "c=\"");
    ItemB(raw);
    ItemC();
    CutItemHas("A" + (";" + item), "A", item, "B=\"", "c=\"", "c");
  }

  lemma {:induction false} ItemC()
    ensures ItemName("c=\"") == "c"
  {
    var item := "c=\"";
    assert item[0] == 'c' && item[1] == '=';
    assert IndexOf(item, '=') == 1;
    assert item[..1] == "c";
    assert TrimStart("c") == "c" && TrimEnd("c") == "c";
    assert "c"[1..] == "";
  }
}
