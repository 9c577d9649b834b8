/** What a written PROPPATCH answer says of one property, and that the search of the parsed
    document finds just that. */
module DavAnswer {
  import opened Common
  import opened DavSearch

  // ---------- Reading a status line ----------

  lemma {:induction false} MatchAfter(version: string, rest: string)
    requires forall c <- version :: !Blank(c)
    ensures MatchCode(version + rest) == MatchCode(rest)
  {
    if version == "" {
      assert version + rest == rest;
    } else {
      assert (version + rest)[1..] == version[1..] + rest;
      MatchAfter(version[1..], rest);
      assert version[0] in version;
      if |version + rest| < 5 {
        assert |rest| < 5;
      }
    }
  }

  predicate ThreeDigits(code: string) {
    |code| == 3 && forall i :: 0 <= i < 3 ==> IsDigit(code[i])
  }

  function StatusLine(version: string, code: string, reason: string): string {
    version + (" " + code + (" " + reason))
  }

  lemma {:induction false} StatusLineTrimmed(version: string, code: string, reason: string)
    requires version != "" && !Blank(version[0]) && ThreeDigits(code)
    ensures OwnText(Text(StatusLine(version, code, reason)))
         == Some(version + (" " + code + (if AllBlank(reason) then "" else " " + TrimEnd(reason))))
  {
    var line := StatusLine(version, code, reason);
    assert line[0] == version[0];
    var head := version + (" " + code);
    assert line == head + (" " + reason);
    TrimEndKeeps(head, " " + reason);
    TrimEndKeeps(" ", reason);
    TrimEndBlank(reason);
    assert TrimEnd(" ") == TrimEnd("") == "";
    assert head[|head| - 1] == code[2];
    assert TrimEnd(head) == head;
    assert " " + code + "" == " " + code;
    assert head + (" " + TrimEnd(reason)) == version + (" " + code + (" " + TrimEnd(reason)));
  }

  /** A status line is read exactly when its reason phrase shows something: the trimming that
      comes first also takes the space the code must be followed by. */
  lemma {:induction false} StatusLineRead(version: string, code: string, reason: string)
    requires version != "" && (forall c <- version :: !Blank(c)) && ThreeDigits(code)
    ensures var text := OwnText(Text(StatusLine(version, code, reason)));
      text.Some? && MatchCode(text.value) == if AllBlank(reason) then None else Some(NatValue(code))
  {
    assert version[0] in version;
    StatusLineTrimmed(version, code, reason);
    var rest := " " + code + (if AllBlank(reason) then "" else " " + TrimEnd(reason));
    MatchAfter(version, rest);
    if !AllBlank(reason) {
      TrimEndBlank(reason);
      assert rest[1..4] == code;
      assert rest[4] == ' ';
    }
  }

  // ---------- Documents as they are written ----------

  datatype Attribute = Declares(prefix: string, uri: string) | Other(name: string, value: string)

  /** An element as written: a prefix that stands for the namespace of its name, attributes, and
      either text alone or parts: text between elements, and elements, those with one spelling
      gathered by the parser. */
  datatype Markup = Markup(prefix: string, name: QName, attributes: seq<Attribute>, content: Content)

  datatype Content = Chars(text: string) | Parts(parts: seq<Part>)

  datatype Part = Between(text: string) | Siblings(siblings: seq<Markup>)

  function Key(m: Markup): string {
    Spell(m.prefix, m.name.localName)
  }

  function AttributeEntries(attributes: seq<Attribute>): seq<Entry> {
    if attributes == [] then []
    else
      var a := attributes[0];
      [if a.Declares? then Entry(DeclarationKey(a.prefix), Text(a.uri)) else Entry("@_" + a.name, Text(a.value))]
      + AttributeEntries(attributes[1..])
  }

  /** What the parser makes of an element. */
  function Parsed(m: Markup): Xml
    decreases m
  {
    if m.attributes == [] && m.content.Chars? then Text(m.content.text)
    else Node(AttributeEntries(m.attributes) + ContentEntries(m.content))
  }

  function ContentEntries(content: Content): seq<Entry>
    decreases content
  {
    match content
    case Chars(text) => if text == "" then [] else [Entry("#text", Text(text))]
    case Parts(parts) => PartEntries(parts)
  }

  function PartEntries(parts: seq<Part>): seq<Entry>
    decreases parts
  {
    if parts == [] then []
    else
      (match parts[0]
       case Between(text) => [Entry("#text", Text(text))]
       case Siblings(siblings) =>
         if siblings == [] then []
         else [Entry(Key(siblings[0]), if |siblings| == 1 then Parsed(siblings[0]) else Many(ParsedAll(siblings)))])
      + PartEntries(parts[1..])
  }

  function ParsedAll(ms: seq<Markup>): (r: seq<Xml>)
    ensures |r| == |ms|
    decreases ms
  {
    if ms == [] then [] else [Parsed(ms[0])] + ParsedAll(ms[1..])
  }

  /** The prefixes in scope inside an element with these attributes. */
  function Bound(scope: Bindings, attributes: seq<Attribute>): Bindings
    decreases |attributes|
  {
    if attributes == [] then scope
    else
      var a := attributes[0];
      Bound(if a.Declares? then scope[a.prefix := a.uri] else scope, attributes[1..])
  }

  /** Every prefix in use is bound to the namespace it stands for. */
  predicate Fits(m: Markup, scope: Bindings)
    decreases m
  {
    var own := Bound(scope, m.attributes);
    && PrefixName(m.prefix) && LocalName(m.name.localName)
    && m.name.namespace != "" && Lookup(own, m.prefix) == Some(m.name.namespace)
    && (forall a <- m.attributes :: a.Other? ==> !("xmlns" <= a.name))
    && (m.content.Parts? ==> PartsFit(m.content.parts, own))
  }

  predicate PartsFit(parts: seq<Part>, own: Bindings)
    decreases parts
  {
    parts == [] ||
    (PartsFit(parts[1..], own) && (parts[0].Siblings? ==> SiblingsFit(parts[0].siblings, own)))
  }

  predicate SiblingsFit(ms: seq<Markup>, own: Bindings)
    decreases ms
  {
    ms == [] || (Fits(ms[0], own) && SiblingsFit(ms[1..], own) && (|ms| > 1 ==> Key(ms[0]) == Key(ms[1])))
  }

  /** The child elements in the order of the parsed document. */
  function Inside(m: Markup): seq<Markup> {
    if m.content.Chars? then [] else Gathered(m.content.parts)
  }

  function Gathered(parts: seq<Part>): seq<Markup> {
    if parts == [] then []
    else (if parts[0].Siblings? then parts[0].siblings else []) + Gathered(parts[1..])
  }

  // ---------- The search sees the names that are written ----------

  function Seen(m: Markup): Element
    decreases m
  {
    Element(Some(m.name), m.attributes != [] || m.content.Parts?,
            if m.content.Chars? then [] else SeenParts(m.content.parts), OwnText(Parsed(m)))
  }

  function SeenParts(parts: seq<Part>): seq<Element>
    decreases parts
  {
    if parts == [] then []
    else (if parts[0].Siblings? then SeenAll(parts[0].siblings) else []) + SeenParts(parts[1..])
  }

  function SeenAll(ms: seq<Markup>): (r: seq<Element>)
    ensures |r| == |ms|
    decreases ms
  {
    if ms == [] then [] else [Seen(ms[0])] + SeenAll(ms[1..])
  }

  lemma {:induction false} SeenAllConcat(a: seq<Markup>, b: seq<Markup>)
    ensures SeenAll(a + b) == SeenAll(a) + SeenAll(b)
  {
    if a == [] {
      assert a + b == b;
    } else {
      assert (a + b)[1..] == a[1..] + b;
      SeenAllConcat(a[1..], b);
    }
  }

  lemma {:induction false} SeenInside(m: Markup)
    ensures Seen(m).children == SeenAll(Inside(m))
  {
    if m.content.Parts? {
      SeenGathered(m.content.parts);
    }
  }

  lemma {:induction false} SeenGathered(parts: seq<Part>)
    ensures SeenParts(parts) == SeenAll(Gathered(parts))
  {
    if parts != [] {
      SeenGathered(parts[1..]);
      SeenAllConcat(if parts[0].Siblings? then parts[0].siblings else [], Gathered(parts[1..]));
    }
  }

  predicate NoDeclarations(entries: seq<Entry>) {
    forall e <- entries :: !IsDeclaration(e.key)
  }

  lemma {:induction false} ScopeUnchanged(entries: seq<Entry>, scope: Bindings)
    requires NoDeclarations(entries)
    ensures Scope(entries, scope) == scope
  {
    if entries != [] {
      assert entries[0] in entries;
      ScopeUnchanged(entries[1..], scope);
    }
  }

  lemma {:induction false} ScopeBound(attributes: seq<Attribute>, rest: seq<Entry>, scope: Bindings)
    requires NoDeclarations(rest) && forall a <- attributes :: a.Other? ==> !("xmlns" <= a.name)
    ensures Scope(AttributeEntries(attributes) + rest, scope) == Bound(scope, attributes)
  {
    if attributes == [] {
      assert AttributeEntries(attributes) + rest == rest;
      ScopeUnchanged(rest, scope);
    } else {
      var a, entries := attributes[0], AttributeEntries(attributes);
      assert (entries + rest)[1..] == AttributeEntries(attributes[1..]) + rest;
      assert a in attributes;
      if a.Declares? {
        DeclarationParts(a.prefix);
      } else {
        OtherKey(a.name);
      }
      ScopeBound(attributes[1..], rest, Declare(entries[0], scope));
    }
  }

  lemma {:induction false} OtherKey(name: string)
    requires !("xmlns" <= name)
    ensures !IsDeclaration("@_" + name) && Skipped("@_" + name)
  {
    var key := "@_" + name;
    assert key[2..] == name;
  }

  lemma {:induction false} PartKeys(parts: seq<Part>, own: Bindings)
    requires PartsFit(parts, own)
    ensures NoDeclarations(PartEntries(parts))
  {
    if parts != [] {
      PartKeys(parts[1..], own);
      if parts[0].Siblings? && parts[0].siblings != [] {
        var m := parts[0].siblings[0];
        assert SiblingsFit(parts[0].siblings, own) && Fits(m, own);
        SpellParts(m.prefix, m.name.localName);
      }
    }
  }

  lemma {:induction false} ScopeOfParsed(m: Markup, scope: Bindings)
    requires Fits(m, scope)
    ensures Scope(Entries(Parsed(m)), scope) == Bound(scope, m.attributes)
  {
    if m.content.Parts? {
      PartKeys(m.content.parts, Bound(scope, m.attributes));
    }
    ScopeBound(m.attributes, ContentEntries(m.content), scope);
  }

  lemma {:induction false} SkippedEntries(attributes: seq<Attribute>, rest: seq<Entry>, own: Bindings)
    ensures ExpandEntries(AttributeEntries(attributes) + rest, own) == ExpandEntries(rest, own)
  {
    if attributes == [] {
      assert AttributeEntries(attributes) + rest == rest;
    } else {
      var a, entries := attributes[0], AttributeEntries(attributes);
      assert (entries + rest)[1..] == AttributeEntries(attributes[1..]) + rest;
      if a.Declares? {
        DeclarationParts(a.prefix);
      }
      SkippedEntries(attributes[1..], rest, own);
    }
  }

  lemma {:induction false} NameBound(m: Markup, scope: Bindings)
    requires Fits(m, scope)
    ensures !Skipped(Key(m)) && ExpandedName(Key(m), Bound(scope, m.attributes)) == Some(m.name)
  {
    SpellParts(m.prefix, m.name.localName);
    ResolvedByParts(Key(m), Bound(scope, m.attributes));
  }

  lemma {:induction false} ExpandSeen(m: Markup, scope: Bindings)
    requires Fits(m, scope)
    ensures Expand(Key(m), Parsed(m), scope) == Seen(m)
    decreases m
  {
    var own := Bound(scope, m.attributes);
    ScopeOfParsed(m, scope);
    NameBound(m, scope);
    if Parsed(m).Node? {
      SkippedEntries(m.attributes, ContentEntries(m.content), own);
      if m.content.Parts? {
        PartsSeen(m.content.parts, own);
      } else {
        TextSkipped(m.content, own);
      }
    }
  }

  lemma {:induction false} TextSkipped(content: Content, own: Bindings)
    requires content.Chars?
    ensures ExpandEntries(ContentEntries(content), own) == []
  {
    if content.text != "" {
      var entry := Entry("#text", Text(content.text));
      assert [entry][1..] == [];
    }
  }

  lemma {:induction false} FirstSkipped(entry: Entry, rest: seq<Entry>, own: Bindings)
    ensures ExpandEntries([entry] + rest, own)
         == (if Skipped(entry.key) then [] else ExpandValue(entry.key, entry.value, own)) + ExpandEntries(rest, own)
  {
    assert ([entry] + rest)[1..] == rest;
  }

  lemma {:induction false} PartsSeen(parts: seq<Part>, own: Bindings)
    requires PartsFit(parts, own)
    ensures ExpandEntries(PartEntries(parts), own) == SeenParts(parts)
    decreases parts
  {
    if parts != [] {
      hide ExpandValue, Skipped, Fits, Key;
      var rest := PartEntries(parts[1..]);
      PartsSeen(parts[1..], own);
      match parts[0]
      case Between(text) =>
        TextIsSkipped();
        FirstSkipped(Entry("#text", Text(text)), rest, own);
      case Siblings(siblings) =>
        if siblings == [] {
          assert PartEntries(parts) == rest;
        } else {
          SiblingsSeen(siblings, own);
          var value := if |siblings| == 1 then Parsed(siblings[0]) else Many(ParsedAll(siblings));
          FirstSkipped(Entry(Key(siblings[0]), value), rest, own);
        }
    }
  }

  lemma {:induction false} TextIsSkipped()
    ensures Skipped("#text")
  {
  }

  lemma {:induction false} SiblingsSeen(ms: seq<Markup>, own: Bindings)
    requires ms != [] && SiblingsFit(ms, own)
    ensures !Skipped(Key(ms[0]))
    ensures var value := if |ms| == 1 then Parsed(ms[0]) else Many(ParsedAll(ms));
      ExpandValue(Key(ms[0]), value, own) == SeenAll(ms)
    decreases ms, 1
  {
    NameBound(ms[0], own);
    ItemsSeen(ms, own);
    if |ms| == 1 {
      assert ms == [ms[0]];
      ExpandSeen(ms[0], own);
      ValueItems(Key(ms[0]), Parsed(ms[0]), own);
    }
  }

  lemma {:induction false} ItemsSeen(ms: seq<Markup>, own: Bindings)
    requires SiblingsFit(ms, own)
    ensures ms != [] ==> ExpandItems(Key(ms[0]), ParsedAll(ms), own) == SeenAll(ms)
    decreases ms, 0
  {
    if ms != [] {
      ExpandSeen(ms[0], own);
      ItemsSeen(ms[1..], own);
      assert ParsedAll(ms)[1..] == ParsedAll(ms[1..]);
    }
  }

  // ---------- Answers as they are written ----------

  /** What one propstat says: the properties it lists and its status line. */
  datatype Propstat = Propstat(properties: seq<QName>, version: string, code: string, reason: string)

  /** No propstat here or below. */
  predicate Unrelated(m: Markup)
    decreases m
  {
    m.name != QName("DAV:", "propstat") && (m.content.Parts? ==> PartsUnrelated(m.content.parts))
  }

  predicate PartsUnrelated(parts: seq<Part>)
    decreases parts
  {
    parts == [] || (PartsUnrelated(parts[1..]) && (parts[0].Siblings? ==> AllUnrelated(parts[0].siblings)))
  }

  predicate AllUnrelated(ms: seq<Markup>)
    decreases ms
  {
    ms == [] || (Unrelated(ms[0]) && AllUnrelated(ms[1..]))
  }

  /** The element at this position is the only one of its name. */
  predicate OnlyAt(ms: seq<Markup>, i: nat, name: QName) {
    i < |ms| && forall k :: 0 <= k < |ms| ==> (ms[k].name == name <==> k == i)
  }

  predicate ListsProperties(prop: Markup, properties: seq<QName>) {
    |Inside(prop)| == |properties| && forall k :: 0 <= k < |properties| ==> Inside(prop)[k].name == properties[k]
  }

  /** The element has this status line as its text, perhaps after white space. */
  ghost predicate HasStatusLine(status: Markup, p: Propstat) {
    && p.version != "" && (forall c <- p.version :: !Blank(c)) && ThreeDigits(p.code)
    && exists lead :: AllBlank(lead)
         && status.content == Chars(lead + (p.version + (" " + p.code + (" " + p.reason))))
  }

  /** A propstat: one `prop` that lists these properties, one `status` with this status line, and
      whatever else, but no propstat inside. */
  ghost predicate IsPropstat(m: Markup, p: Propstat) {
    && m.name == QName("DAV:", "propstat") && AllUnrelated(Inside(m))
    && exists i: nat, j: nat ::
         && OnlyAt(Inside(m), i, QName("DAV:", "prop")) && ListsProperties(Inside(m)[i], p.properties)
         && OnlyAt(Inside(m), j, QName("DAV:", "status")) && HasStatusLine(Inside(m)[j], p)
  }

  /** The propstats among these elements, in order. */
  ghost predicate Holds(ms: seq<Markup>, ps: seq<Propstat>) {
    if ms == [] then ps == []
    else if ms[0].name == QName("DAV:", "propstat") then
      ps != [] && IsPropstat(ms[0], ps[0]) && Holds(ms[1..], ps[1..])
    else Unrelated(ms[0]) && Holds(ms[1..], ps)
  }

  /** The elements are responses with these propstats each. */
  ghost predicate AreResponses(ms: seq<Markup>, responses: seq<seq<Propstat>>) {
    && |ms| == |responses|
    && forall i :: 0 <= i < |ms| ==> ms[i].name != QName("DAV:", "propstat") && Holds(Inside(ms[i]), responses[i])
  }

  /** A document with one root element, perhaps after an XML declaration. */
  datatype Document = Document(declaration: Option<seq<Attribute>>, root: Markup)

  function Written(d: Document): Xml {
    Node((if d.declaration.None? then [] else [Entry("?xml", Node(AttributeEntries(d.declaration.value)))])
         + [Entry(Key(d.root), Parsed(d.root))])
  }

  /** The document is a multistatus of these responses. */
  ghost predicate Answer(d: Document, responses: seq<seq<Propstat>>) {
    && Fits(d.root, map[]) && d.root.name != QName("DAV:", "propstat") && AreResponses(Inside(d.root), responses)
    && (d.declaration.Some? ==> forall a <- d.declaration.value :: a.Other? && !("xmlns" <= a.name))
  }

  /** The code of the first propstat that lists the property and whose status line can be read. */
  function StatusIn(ps: seq<Propstat>, property: QName): Option<nat> {
    if ps == [] then None
    else if property in ps[0].properties && !AllBlank(ps[0].reason) && ThreeDigits(ps[0].code) then
      Some(NatValue(ps[0].code))
    else StatusIn(ps[1..], property)
  }

  // ---------- What the search answers ----------

  lemma {:induction false} FirstNamedSeen(ms: seq<Markup>, i: nat, name: QName)
    requires OnlyAt(ms, i, name)
    ensures FirstNamed(SeenAll(ms), name) == Some(Seen(ms[i]))
  {
    assert SeenAll(ms)[1..] == SeenAll(ms[1..]);
    if i > 0 {
      assert forall k :: 0 <= k < |ms[1..]| ==> ms[1..][k] == ms[k + 1];
      FirstNamedSeen(ms[1..], i - 1, name);
    }
  }

  lemma {:induction false} HasNamedSeen(ms: seq<Markup>, name: QName)
    ensures HasNamed(SeenAll(ms), name) <==> exists m <- ms :: m.name == name
  {
    if ms != [] {
      assert SeenAll(ms)[1..] == SeenAll(ms[1..]);
      HasNamedSeen(ms[1..], name);
      assert ms == [ms[0]] + ms[1..];
    }
  }

  lemma {:induction false} ListedSeen(prop: Markup, properties: seq<QName>, target: QName)
    requires ListsProperties(prop, properties)
    ensures Seen(prop).isNode && HasNamed(Seen(prop).children, target) <==> target in properties
  {
    var ms := Inside(prop);
    SeenInside(prop);
    HasNamedSeen(ms, target);
    if target in properties {
      var k :| 0 <= k < |properties| && properties[k] == target;
      assert ms[k] in ms && ms[k].name == target;
      assert prop.content.Parts?;
    }
  }

  lemma {:induction false} StatusSeen(status: Markup, p: Propstat)
    requires HasStatusLine(status, p)
    ensures var text := Seen(status).text;
      text.Some? && MatchCode(text.value) == if AllBlank(p.reason) then None else Some(NatValue(p.code))
  {
    var line := StatusLine(p.version, p.code, p.reason);
    var lead :| AllBlank(lead) && status.content == Chars(lead + line);
    StatusLineRead(p.version, p.code, p.reason);
    LeadTrimmed(lead, line);
    OwnTextOfChars(status);
  }

  lemma {:induction false} OwnTextOfChars(m: Markup)
    requires m.content.Chars? && m.content.text != ""
    ensures OwnText(Parsed(m)) == TextValue(Text(m.content.text))
  {
    if m.attributes != [] {
      AttributesHaveNoText(m.attributes, ContentEntries(m.content));
    }
  }

  lemma {:induction false} AttributesHaveNoText(attributes: seq<Attribute>, rest: seq<Entry>)
    ensures Property(AttributeEntries(attributes) + rest, "#text") == Property(rest, "#text")
  {
    if attributes == [] {
      assert AttributeEntries(attributes) + rest == rest;
    } else {
      var entries := AttributeEntries(attributes);
      assert (entries + rest)[1..] == AttributeEntries(attributes[1..]) + rest;
      assert entries[0].key[0] == '@';
      AttributesHaveNoText(attributes[1..], rest);
    }
  }

  lemma {:induction false} PropstatSeen(m: Markup, p: Propstat, target: QName)
    requires IsPropstat(m, p)
    ensures StatusOf(Seen(m), target)
         == if target in p.properties && !AllBlank(p.reason) then Some(NatValue(p.code)) else None
  {
    var ms := Inside(m);
    var i: nat, j: nat :| && OnlyAt(ms, i, QName("DAV:", "prop")) && ListsProperties(ms[i], p.properties)
      && OnlyAt(ms, j, QName("DAV:", "status")) && HasStatusLine(ms[j], p);
    SeenInside(m);
    FirstNamedSeen(ms, i, PROP);
    FirstNamedSeen(ms, j, STATUS);
    ListedSeen(ms[i], p.properties, target);
    StatusSeen(ms[j], p);
  }

  lemma {:induction false} NothingInside(m: Markup, target: QName)
    requires Unrelated(m)
    ensures Found([Seen(m)], target) == None
    decreases m, 1
  {
    FoundHead(Seen(m), [], target);
    assert [Seen(m)] + [] == [Seen(m)];
    if m.content.Parts? {
      NothingInParts(m.content.parts, target);
    }
  }

  lemma {:induction false} NothingInParts(parts: seq<Part>, target: QName)
    requires PartsUnrelated(parts)
    ensures Found(SeenParts(parts), target) == None
    decreases parts
  {
    if parts != [] {
      NothingInParts(parts[1..], target);
      if parts[0].Siblings? {
        NothingAmong(parts[0].siblings, target);
        FoundConcat(SeenAll(parts[0].siblings), SeenParts(parts[1..]), target);
      } else {
        assert [] + SeenParts(parts[1..]) == SeenParts(parts[1..]);
      }
    }
  }

  lemma {:induction false} NothingAmong(ms: seq<Markup>, target: QName)
    requires AllUnrelated(ms)
    ensures Found(SeenAll(ms), target) == None
    decreases ms, 0
  {
    if ms != [] {
      NothingInside(ms[0], target);
      NothingAmong(ms[1..], target);
      FoundConcat([Seen(ms[0])], SeenAll(ms[1..]), target);
    }
  }

  lemma {:induction false} FoundAmong(ms: seq<Markup>, ps: seq<Propstat>, target: QName)
    requires Holds(ms, ps)
    ensures Found(SeenAll(ms), target) == StatusIn(ps, target)
  {
    if ms != [] {
      var m, rest := ms[0], SeenAll(ms[1..]);
      FoundHead(Seen(m), rest, target);
      assert SeenAll(ms) == [Seen(m)] + rest;
      if m.name == QName("DAV:", "propstat") {
        FoundAmong(ms[1..], ps[1..], target);
        PropstatSeen(m, ps[0], target);
        SeenInside(m);
        NothingAmong(Inside(m), target);
        CodeOf(m, ps[0]);
      } else {
        FoundAmong(ms[1..], ps, target);
        NothingInside(m, target);
        FoundConcat([Seen(m)], rest, target);
      }
    }
  }

  lemma {:induction false} CodeOf(m: Markup, p: Propstat)
    requires IsPropstat(m, p)
    ensures ThreeDigits(p.code)
  {
  }

  lemma {:induction false} StatusInConcat(a: seq<Propstat>, b: seq<Propstat>, target: QName)
    ensures StatusIn(a + b, target) == Else(StatusIn(a, target), StatusIn(b, target))
  {
    if a == [] {
      assert a + b == b;
    } else {
      assert (a + b)[1..] == a[1..] + b;
      StatusInConcat(a[1..], b, target);
    }
  }

  lemma {:induction false} FoundInResponses(ms: seq<Markup>, responses: seq<seq<Propstat>>, target: QName)
    requires AreResponses(ms, responses)
    ensures Found(SeenAll(ms), target) == StatusIn(Concat(responses), target)
  {
    if ms != [] {
      assert ms[0].name != QName("DAV:", "propstat") && Holds(Inside(ms[0]), responses[0]);
      FoundHead(Seen(ms[0]), SeenAll(ms[1..]), target);
      assert SeenAll(ms) == [Seen(ms[0])] + SeenAll(ms[1..]);
      SeenInside(ms[0]);
      FoundAmong(Inside(ms[0]), responses[0], target);
      FoundInResponses(ms[1..], responses[1..], target);
      StatusInConcat(responses[0], Concat(responses[1..]), target);
    }
  }

  lemma {:induction false} FoundInRoot(root: Markup, responses: seq<seq<Propstat>>, target: QName)
    requires root.name != QName("DAV:", "propstat") && AreResponses(Inside(root), responses)
    ensures Found([Seen(root)], target) == StatusIn(Concat(responses), target)
  {
    FoundHead(Seen(root), [], target);
    assert [Seen(root)] + [] == [Seen(root)];
    SeenInside(root);
    FoundInResponses(Inside(root), responses, target);
  }

  lemma {:induction false} RootSeen(root: Markup)
    requires Fits(root, map[])
    ensures NoDeclarations([Entry(Key(root), Parsed(root))])
    ensures ExpandEntries([Entry(Key(root), Parsed(root))], map[]) == [Seen(root)]
  {
    var entries := [Entry(Key(root), Parsed(root))];
    var none: Bindings := map[];
    SpellParts(root.prefix, root.name.localName);
    NameBound(root, none);
    ExpandSeen(root, none);
    ValueItems(Key(root), Parsed(root), none);
    assert entries[1..] == [];
  }

  /** The XML declaration is an element without a name, and empty. */
  lemma {:induction false} DeclarationExpanded(attributes: seq<Attribute>)
    requires forall a <- attributes :: a.Other? && !("xmlns" <= a.name)
    ensures var e := Expand("?xml", Node(AttributeEntries(attributes)), map[]); e.name == None && e.children == []
  {
    var none: Bindings := map[];
    var entries := AttributeEntries(attributes);
    assert entries + [] == entries;
    ScopeBound(attributes, [], none);
    SameBound(attributes, none);
    SkippedEntries(attributes, [], none);
    DeclarationName();
  }

  lemma {:induction false} DeclarationName()
    ensures ExpandedName("?xml", map[]) == None && !Skipped("?xml") && !IsDeclaration("?xml")
  {
  }

  lemma {:induction false} NamelessSilent(e: Element, es: seq<Element>, target: QName)
    requires e.name == None && e.children == []
    ensures Found([e] + es, target) == Found(es, target)
  {
    FoundHead(e, es, target);
  }

  lemma {:induction false} DeclarationSeen(attributes: seq<Attribute>, rest: seq<Entry>, target: QName)
    requires forall a <- attributes :: a.Other? && !("xmlns" <= a.name)
    requires NoDeclarations(rest)
    ensures var entries := [Entry("?xml", Node(AttributeEntries(attributes)))] + rest;
      && NoDeclarations(entries)
      && Found(ExpandEntries(entries, map[]), target) == Found(ExpandEntries(rest, map[]), target)
  {
    hide Expand, AttributeEntries, ExpandedName, Found;
    var none: Bindings := map[];
    var value := Node(AttributeEntries(attributes));
    assert ([Entry("?xml", value)] + rest)[1..] == rest;
    DeclarationName();
    DeclarationExpanded(attributes);
    NamelessSilent(Expand("?xml", value, none), ExpandEntries(rest, none), target);
  }

  lemma {:induction false} SameBound(attributes: seq<Attribute>, scope: Bindings)
    requires forall a <- attributes :: a.Other?
    ensures Bound(scope, attributes) == scope
  {
    if attributes != [] {
      assert attributes[0] in attributes;
      SameBound(attributes[1..], scope);
    }
  }

  lemma {:induction false} AnswerFound(d: Document, responses: seq<seq<Propstat>>, target: QName)
    requires Answer(d, responses)
    ensures FirstStatus(Descendants(Written(d), map[]), target) == StatusIn(Concat(responses), target)
  {
    var none: Bindings := map[];
    var root := [Entry(Key(d.root), Parsed(d.root))];
    RootSeen(d.root);
    FoundInRoot(d.root, responses, target);
    if d.declaration.Some? {
      DeclarationSeen(d.declaration.value, root, target);
      ScopeUnchanged([Entry("?xml", Node(AttributeEntries(d.declaration.value)))] + root, none);
    } else {
      assert [] + root == root;
      ScopeUnchanged(root, none);
    }
  }

  // ---------- An answer that refuses one of two changes ----------

  const CALDAV := "urn:ietf:params:xml:ns:caldav"

  function Tag(prefix: string, namespace: string, localName: string, content: Content): Markup {
    Markup(prefix, QName(namespace, localName), [], content)
  }

  function OneByOne(ms: seq<Markup>): seq<Part> {
    if ms == [] then [] else [Siblings([ms[0]])] + OneByOne(ms[1..])
  }

  lemma {:induction false} GatheredOneByOne(ms: seq<Markup>)
    ensures Gathered(OneByOne(ms)) == ms
  {
    if ms != [] {
      assert OneByOne(ms)[1..] == OneByOne(ms[1..]);
      GatheredOneByOne(ms[1..]);
    }
  }

  lemma {:induction false} OneByOneFit(ms: seq<Markup>, own: Bindings)
    requires forall m <- ms :: Fits(m, own)
    ensures PartsFit(OneByOne(ms), own)
  {
    if ms != [] {
      assert OneByOne(ms)[1..] == OneByOne(ms[1..]);
      assert Fits(ms[0], own) && [ms[0]][1..] == [];
      assert SiblingsFit([ms[0]], own);
      OneByOneFit(ms[1..], own);
    }
  }

  lemma {:induction false} TagFits(prefix: string, namespace: string, localName: string, ms: seq<Markup>, own: Bindings)
    requires PrefixName(prefix) && LocalName(localName) && namespace != "" && Lookup(own, prefix) == Some(namespace)
    requires forall m <- ms :: Fits(m, own)
    ensures Fits(Tag(prefix, namespace, localName, Parts(OneByOne(ms))), own)
    ensures Inside(Tag(prefix, namespace, localName, Parts(OneByOne(ms)))) == ms
  {
    OneByOneFit(ms, own);
    GatheredOneByOne(ms);
  }

  lemma {:induction false} AllUnrelatedOnes(ms: seq<Markup>)
    requires forall m <- ms :: Unrelated(m)
    ensures AllUnrelated(ms) && PartsUnrelated(OneByOne(ms))
  {
    if ms != [] {
      assert Unrelated(ms[0]) && [ms[0]][1..] == [];
      assert AllUnrelated([ms[0]]);
      assert OneByOne(ms)[1..] == OneByOne(ms[1..]);
      AllUnrelatedOnes(ms[1..]);
    }
  }

  /** A propstat of one property, as a server would write it. */
  function OnePropstat(prefix: string, property: QName, code: string, reason: string): Markup {
    Tag("d", "DAV:", "propstat", Parts(OneByOne([
      Tag("d", "DAV:", "prop", Parts(OneByOne([Tag(prefix, property.namespace, property.localName, Chars(""))]))),
      Tag("d", "DAV:", "status", Chars("" + ("HTTP/1.1" + (" " + code + (" " + reason)))))])))
  }

  lemma {:induction false} PropFits(prefix: string, property: QName, own: Bindings)
    requires PrefixName(prefix) && LocalName(property.localName) && property.namespace != ""
    requires property.localName != "propstat"
    requires Lookup(own, prefix) == Some(property.namespace) && Lookup(own, "d") == Some("DAV:")
    ensures var name := Tag(prefix, property.namespace, property.localName, Chars(""));
      var prop := Tag("d", "DAV:", "prop", Parts(OneByOne([name])));
      Fits(prop, own) && Unrelated(prop) && ListsProperties(prop, [property])
  {
    var name := Tag(prefix, property.namespace, property.localName, Chars(""));
    assert Fits(name, own);
    TagFits("d", "DAV:", "prop", [name], own);
    AllUnrelatedOnes([name]);
  }

  lemma {:induction false} StatusFits(code: string, reason: string, property: QName, own: Bindings)
    requires ThreeDigits(code) && Lookup(own, "d") == Some("DAV:")
    ensures var status := Tag("d", "DAV:", "status", Chars("" + ("HTTP/1.1" + (" " + code + (" " + reason)))));
      Fits(status, own) && Unrelated(status) && HasStatusLine(status, Propstat([property], "HTTP/1.1", code, reason))
  {
    assert AllBlank("");
  }

  lemma {:induction false} OnePropstatIs(prefix: string, property: QName, code: string, reason: string, own: Bindings)
    requires PrefixName(prefix) && LocalName(property.localName) && property.namespace != ""
    requires property.localName != "propstat" && ThreeDigits(code)
    requires Lookup(own, prefix) == Some(property.namespace) && Lookup(own, "d") == Some("DAV:")
    ensures Fits(OnePropstat(prefix, property, code, reason), own)
    ensures IsPropstat(OnePropstat(prefix, property, code, reason), Propstat([property], "HTTP/1.1", code, reason))
  {
    PropFits(prefix, property, own);
    StatusFits(code, reason, property, own);
    hide Fits, Unrelated, ListsProperties, HasStatusLine;
    var m := OnePropstat(prefix, property, code, reason);
    var ms := [
      Tag("d", "DAV:", "prop", Parts(OneByOne([Tag(prefix, property.namespace, property.localName, Chars(""))]))),
      Tag("d", "DAV:", "status", Chars("" + ("HTTP/1.1" + (" " + code + (" " + reason)))))];
    TagFits("d", "DAV:", "propstat", ms, own);
    AllUnrelatedOnes(ms);
    assert OnlyAt(Inside(m), 0, QName("DAV:", "prop")) && OnlyAt(Inside(m), 1, QName("DAV:", "status"));
  }

  lemma {:induction false} TwoHold(a: Markup, b: Markup, p: Propstat, q: Propstat)
    requires IsPropstat(a, p) && IsPropstat(b, q)
    ensures Holds([a, b], [p, q])
  {
    hide IsPropstat;
    PropstatName(a, p);
    PropstatName(b, q);
    assert [a, b][1..] == [b] && [p, q][1..] == [q] && [b][1..] == [] && [q][1..] == [];
    assert Holds([b], [q]);
  }

  lemma {:induction false} PropstatName(m: Markup, p: Propstat)
    requires IsPropstat(m, p)
    ensures m.name == QName("DAV:", "propstat")
  {
  }

  /** A multistatus of one response with these two propstats. */
  function TwoPropstats(a: Markup, b: Markup): Document {
    Document(None, Markup("d", QName("DAV:", "multistatus"), [Declares("d", "DAV:"), Declares("c", CALDAV)],
                          Parts(OneByOne([Tag("d", "DAV:", "response", Parts(OneByOne([a, b])))]))))
  }

  lemma {:induction false} TwoPropstatsAnswer(a: Markup, b: Markup, p: Propstat, q: Propstat)
    requires var own := map["d" := "DAV:", "c" := CALDAV]; Fits(a, own) && Fits(b, own)
    requires IsPropstat(a, p) && IsPropstat(b, q)
    ensures Answer(TwoPropstats(a, b), [[p, q]])
  {
    hide IsPropstat, Holds;
    var own := map["d" := "DAV:", "c" := CALDAV];
    var none: Bindings := map[];
    var root := TwoPropstats(a, b).root;
    TwoHold(a, b, p, q);
    TagFits("d", "DAV:", "response", [a, b], own);
    var response := Tag("d", "DAV:", "response", Parts(OneByOne([a, b])));
    OneByOneFit([response], own);
    GatheredOneByOne([response]);
    assert root.attributes[1..] == [Declares("c", CALDAV)] && root.attributes[1..][1..] == [];
    assert Bound(none, root.attributes) == none["d" := "DAV:"]["c" := CALDAV] == own;
  }

  /** The name was changed and the description refused: the search reports both. */
  lemma {:induction false} RefusalIsReported() returns (d: Document)
    ensures FirstStatus(Descendants(Written(d), map[]), QName("DAV:", "displayname")) == Some(200)
    ensures FirstStatus(Descendants(Written(d), map[]), QName(CALDAV, "calendar-description")) == Some(403)
  {
    hide Fits, IsPropstat, Answer, OnePropstat, Descendants, FirstStatus, StatusIn, Written;
    var own := map["d" := "DAV:", "c" := CALDAV];
    var name, description := QName("DAV:", "displayname"), QName(CALDAV, "calendar-description");
    OnePropstatIs("d", name, "200", "OK", own);
    OnePropstatIs("c", description, "403", "Forbidden", own);
    var p, q := Propstat([name], "HTTP/1.1", "200", "OK"), Propstat([description], "HTTP/1.1", "403", "Forbidden");
    var a, b := OnePropstat("d", name, "200", "OK"), OnePropstat("c", description, "403", "Forbidden");
    TwoPropstatsAnswer(a, b, p, q);
    d := TwoPropstats(a, b);
    AnswerFound(d, [[p, q]], name);
    AnswerFound(d, [[p, q]], description);
    StatusOfTwo([p, q], name, description);
    OneResponse([p, q]);
  }

  lemma {:induction false} OneResponse(ps: seq<Propstat>)
    ensures Concat([ps]) == ps
  {
    assert [ps][1..] == [];
  }

  lemma {:induction false} StatusOfTwo(ps: seq<Propstat>, name: QName, description: QName)
    requires name != description
    requires ps == [Propstat([name], "HTTP/1.1", "200", "OK"), Propstat([description], "HTTP/1.1", "403", "Forbidden")]
    ensures StatusIn(ps, name) == Some(200) && StatusIn(ps, description) == Some(403)
  {
    assert ps[1..] == [ps[1]];
    assert 'O' in "OK" && !Blank('O') && 'F' in "Forbidden" && !Blank('F');
    assert "200"[..2] == "20" && "20"[..1] == "2" && "2"[..0] == "";
    assert "403"[..2] == "40" && "40"[..1] == "4" && "4"[..0] == "";
    assert NatValue("2") == 2 && NatValue("20") == 20 && NatValue("4") == 4 && NatValue("40") == 40;
  }

  // ---------- The property asked for ----------

  /** The property asked for, by its local name. */
  function TargetOf(propertyName: string): (r: QName) {
    QName(if propertyName == "displayname" then "DAV:"
          else if propertyName == "calendar-description" then "urn:ietf:params:xml:ns:caldav"
          else "http://apple.com/ns/ical/", propertyName)
  }

  /** Whatever the document was written from, the status is what that says of the property. */
  ghost predicate Reads(document: Xml, status: Option<nat>, property: QName) {
    forall d, responses :: Answer(d, responses) && Written(d) == document ==>
      status == StatusIn(Concat(responses), property)
  }

  /** The first element of the document that reports on the property decides: in a written answer
      the first propstat that lists the property in its namespace. */
  method PropPatchPropertyStatus(document: Xml, propertyName: string) returns (status: Option<nat>)
    ensures Answers(status, Descendants(document, map[]), TargetOf(propertyName))
    ensures propertyName == "displayname" ==> Reads(document, status, QName("DAV:", "displayname"))
    ensures propertyName == "calendar-description" ==>
      Reads(document, status, QName("urn:ietf:params:xml:ns:caldav", "calendar-description"))
    ensures propertyName == "calendar-color" ==>
      Reads(document, status, QName("http://apple.com/ns/ical/", "calendar-color"))
  {
    var target := TargetOf(propertyName);
    status := FindPropertyStatus(document, map[], target);
    FirstStatusAnswers(Descendants(document, map[]), target);
    forall d, responses | Answer(d, responses) && Written(d) == document
      ensures status == StatusIn(Concat(responses), target)
    {
      AnswerFound(d, responses, target);
    }
  }
}
