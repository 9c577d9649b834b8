/** The search of a PROPPATCH answer for the status of one property. Its reference is a
    tree in which every element carries its expanded name (section 6 of Namespaces in
    XML 1.0) and no prefix is left. */
module DavSearch {
  import opened Common

  /** A parsed value: nothing, text, an object of children and attributes, or same-named siblings. */
  datatype Xml =
    | Null
    | Text(text: string)
    | Node(entries: seq<Entry>)
    | Many(items: seq<Xml>)

  datatype Entry = Entry(key: string, value: Xml)

  /** Prefixes in scope; the default namespace belongs to the empty prefix. */
  type Bindings = map<string, string>

  datatype Resolved = Resolved(namespace: Option<string>, localName: string)

  datatype QName = QName(namespace: string, localName: string)

  function AsArray(value: Xml): seq<Xml> {
    match value
    case Null => []
    case Many(items) => items
    case _ => [value]
  }

  function AsNode(value: Xml): Option<seq<Entry>> {
    if value.Node? then Some(value.entries) else None
  }

  function Entries(value: Xml): seq<Entry> {
    if value.Node? then value.entries else []
  }

  // ---------- Names and scopes ----------

  predicate IsDeclaration(key: string) {
    key == "@_xmlns" || "@_xmlns:" <= key
  }

  function DeclaredPrefix(key: string): string
    requires IsDeclaration(key)
  {
    if |key| <= 8 then "" else key[8..]
  }

  predicate Skipped(key: string) {
    "@_" <= key || key == "#text"
  }

  function Lookup(namespaces: Bindings, prefix: string): Option<string> {
    if prefix in namespaces then Some(namespaces[prefix]) else None
  }

  function ResolveQName(name: string, namespaces: Bindings): Option<Resolved> {
    var separator := IndexOf(name, ':');
    if separator == |name| then Some(Resolved(Lookup(namespaces, ""), name))
    else
      var namespace := Lookup(namespaces, name[..separator]);
      if namespace.Some? && namespace.value != "" then Some(Resolved(namespace, name[separator + 1..]))
      else None
  }

  function Declare(entry: Entry, namespaces: Bindings): Bindings {
    if IsDeclaration(entry.key) && entry.value.Text?
    then namespaces[DeclaredPrefix(entry.key) := entry.value.text]
    else namespaces
  }

  /** The scope inside an element: its declarations in order, the last of a prefix standing. */
  function Scope(entries: seq<Entry>, inherited: Bindings): Bindings {
    if entries == [] then inherited else Scope(entries[1..], Declare(entries[0], inherited))
  }

  /** A prefix keeps its inherited binding, or gets one that ignores what was inherited. */
  lemma {:induction false} ScopeCases(entries: seq<Entry>, a: Bindings, b: Bindings, p: string)
    ensures
      || (Lookup(Scope(entries, a), p) == Lookup(a, p) && Lookup(Scope(entries, b), p) == Lookup(b, p))
      || Lookup(Scope(entries, a), p) == Lookup(Scope(entries, b), p)
  {
    if entries != [] {
      ScopeCases(entries[1..], Declare(entries[0], a), Declare(entries[0], b), p);
    }
  }

  /** Entering an element whose declarations are already in scope changes nothing. */
  lemma {:induction false} ScopeAgain(entries: seq<Entry>, inherited: Bindings)
    ensures Scope(entries, Scope(entries, inherited)) == Scope(entries, inherited)
  {
    var once := Scope(entries, inherited);
    var twice := Scope(entries, once);
    forall p ensures Lookup(twice, p) == Lookup(once, p) {
      ScopeCases(entries, inherited, once, p);
    }
    forall p ensures p in twice <==> p in once {
      assert Lookup(twice, p) == Lookup(once, p);
    }
    forall p | p in twice ensures twice[p] == once[p] {
      assert Lookup(twice, p) == Lookup(once, p);
    }
  }

  method NamespaceDeclarations(node: Option<seq<Entry>>, inherited: Bindings) returns (namespaces: Bindings)
    ensures namespaces == Scope(if node.Some? then node.value else [], inherited)
  {
    namespaces := inherited;
    var entries := if node.Some? then node.value else [];
    for i := 0 to |entries|
      invariant Scope(entries, inherited) == Scope(entries[i..], namespaces)
    {
      var name, value := entries[i].key, entries[i].value;
      assert entries[i..][1..] == entries[i + 1..];
      if name == "@_xmlns" && value.Text? {
        namespaces := namespaces["" := value.text];
      } else if "@_xmlns:" <= name && value.Text? {
        namespaces := namespaces[name[8..] := value.text];
      }
    }
  }

  // ---------- Status text ----------

  function TextValue(value: Xml): Option<string> {
    if value.Text? && Trim(value.text) != "" then Some(Trim(value.text)) else None
  }

  function Property(entries: seq<Entry>, key: string): Xml {
    if entries == [] then Null else if entries[0].key == key then entries[0].value else Property(entries[1..], key)
  }

  /** The text of an element: its own, or that of a node that also has attributes. */
  function OwnText(value: Xml): Option<string> {
    var inner := Property(Entries(value), "#text");
    TextValue(if inner.Null? then value else inner)
  }

  /** Three digits between white space, wherever they first occur. */
  predicate CodeAt(s: string, i: nat) {
    && i + 5 <= |s|
    && Blank(s[i]) && IsDigit(s[i + 1]) && IsDigit(s[i + 2]) && IsDigit(s[i + 3]) && Blank(s[i + 4])
  }

  function MatchCode(s: string): Option<nat> {
    if |s| < 5 then None
    else if CodeAt(s, 0) then Some(NatValue(s[1..4]))
    else MatchCode(s[1..])
  }

  // ---------- The tree of expanded names ----------

  /** An element as the standard sees it: expanded name, children, and its trimmed text. */
  datatype Element = Element(name: Option<QName>, isNode: bool, children: seq<Element>, text: Option<string>)

  function ExpandedName(name: string, namespaces: Bindings): Option<QName> {
    match ResolveQName(name, namespaces)
    case Some(Resolved(Some(namespace), localName)) =>
      if namespace == "" then None else Some(QName(namespace, localName))
    case _ => None
  }

  function Expand(key: string, child: Xml, inherited: Bindings): Element
    decreases child, 1
  {
    var own := Scope(Entries(child), inherited);
    Element(ExpandedName(key, own), child.Node?, Children(child, own), OwnText(child))
  }

  function Children(value: Xml, own: Bindings): seq<Element>
    decreases value, 0
  {
    if value.Node? then ExpandEntries(value.entries, own) else []
  }

  function ExpandEntries(entries: seq<Entry>, own: Bindings): seq<Element>
    decreases entries, 0
  {
    if entries == [] then []
    else (if Skipped(entries[0].key) then [] else ExpandValue(entries[0].key, entries[0].value, own))
         + ExpandEntries(entries[1..], own)
  }

  function ExpandValue(key: string, value: Xml, own: Bindings): seq<Element>
    decreases value, 2
  {
    match value
    case Null => []
    case Many(items) => ExpandItems(key, items, own)
    case _ => [Expand(key, value, own)]
  }

  function ExpandItems(key: string, items: seq<Xml>, own: Bindings): seq<Element>
    decreases items, 0
  {
    if items == [] then [] else [Expand(key, items[0], own)] + ExpandItems(key, items[1..], own)
  }

  lemma {:induction false} ValueItems(key: string, value: Xml, own: Bindings)
    ensures ExpandValue(key, value, own) == ExpandItems(key, AsArray(value), own)
  {
    if value.Text? || value.Node? {
      assert ExpandItems(key, [value][1..], own) == [];
    }
  }

  function Preorder(e: Element): seq<Element> {
    [e] + PreorderAll(e.children)
  }

  function PreorderAll(es: seq<Element>): seq<Element> {
    if es == [] then [] else Preorder(es[0]) + PreorderAll(es[1..])
  }

  /** Every element below a parsed value, in document order of the parsed tree. */
  function Descendants(value: Xml, inherited: Bindings): seq<Element> {
    PreorderAll(Children(value, Scope(Entries(value), inherited)))
  }

  function FirstNamed(es: seq<Element>, name: QName): Option<Element> {
    if es == [] then None else if es[0].name == Some(name) then Some(es[0]) else FirstNamed(es[1..], name)
  }

  predicate HasNamed(es: seq<Element>, name: QName) {
    FirstNamed(es, name).Some?
  }

  const PROPSTAT := QName("DAV:", "propstat")
  const PROP := QName("DAV:", "prop")
  const STATUS := QName("DAV:", "status")

  predicate Reports(e: Element, target: QName) {
    && e.name == Some(PROPSTAT)
    && var prop := FirstNamed(e.children, PROP);
       prop.Some? && prop.value.isNode && HasNamed(prop.value.children, target)
  }

  /** What one element says about the property: the code of its status, if it is a propstat
      that mentions the property and its status can be read. */
  function StatusOf(e: Element, target: QName): Option<nat> {
    if Reports(e, target) then ReadStatus(e) else None
  }

  function ReadStatus(e: Element): Option<nat> {
    var status := FirstNamed(e.children, STATUS);
    if status.Some? && status.value.text.Some? then MatchCode(status.value.text.value) else None
  }

  function FirstStatus(es: seq<Element>, target: QName): Option<nat> {
    if es == [] then None
    else if StatusOf(es[0], target).Some? then StatusOf(es[0], target)
    else FirstStatus(es[1..], target)
  }

  /** The answer comes from the first element with something to say; no answer, no such element. */
  ghost predicate Answers(status: Option<nat>, es: seq<Element>, target: QName) {
    match status
    case None => forall e <- es :: StatusOf(e, target).None?
    case Some(_) =>
      exists i :: 0 <= i < |es| && StatusOf(es[i], target) == status
        && forall j :: 0 <= j < i ==> StatusOf(es[j], target).None?
  }

  lemma {:induction false} FirstStatusAnswers(es: seq<Element>, target: QName)
    ensures Answers(FirstStatus(es, target), es, target)
  {
    if es != [] {
      FirstStatusAnswers(es[1..], target);
      var rest := FirstStatus(es[1..], target);
      if StatusOf(es[0], target).None? && rest.Some? {
        var i :| 0 <= i < |es| - 1 && StatusOf(es[1..][i], target) == rest
          && forall j :: 0 <= j < i ==> StatusOf(es[1..][j], target).None?;
        assert StatusOf(es[i + 1], target) == rest;
        forall j | 0 <= j < i + 1 ensures StatusOf(es[j], target).None? {
          assert j > 0 ==> es[j] == es[1..][j - 1];
        }
      } else if StatusOf(es[0], target).None? {
        forall e | e in es ensures StatusOf(e, target).None? {
          assert e == es[0] || e in es[1..];
        }
      }
    }
  }

  // ---------- The search, step by step ----------

  function Found(es: seq<Element>, target: QName): Option<nat> {
    FirstStatus(PreorderAll(es), target)
  }

  function Else<T>(a: Option<T>, b: Option<T>): Option<T> {
    if a.Some? then a else b
  }

  lemma {:induction false} FirstStatusConcat(a: seq<Element>, b: seq<Element>, target: QName)
    ensures FirstStatus(a + b, target) == Else(FirstStatus(a, target), FirstStatus(b, target))
  {
    if a == [] {
      assert a + b == b;
    } else {
      assert (a + b)[1..] == a[1..] + b;
      FirstStatusConcat(a[1..], b, target);
    }
  }

  lemma {:induction false} FoundHead(e: Element, rest: seq<Element>, target: QName)
    ensures Found([e] + rest, target) == Else(StatusOf(e, target), Else(Found(e.children, target), Found(rest, target)))
  {
    var es := [e] + rest;
    assert es[1..] == rest;
    FirstStatusConcat(Preorder(e), PreorderAll(rest), target);
    assert Preorder(e)[1..] == PreorderAll(e.children);
  }

  lemma {:induction false} FirstNamedHead(e: Element, rest: seq<Element>, name: QName)
    ensures FirstNamed([e] + rest, name) == if e.name == Some(name) then Some(e) else FirstNamed(rest, name)
  {
    assert ([e] + rest)[1..] == rest;
  }

  lemma {:induction false} EnterEntry(entries: seq<Entry>, i: nat, own: Bindings)
    requires i < |entries|
    ensures var rest := ExpandEntries(entries[i + 1..], own);
      ExpandEntries(entries[i..], own)
      == if Skipped(entries[i].key) then rest else ExpandItems(entries[i].key, AsArray(entries[i].value), own) + rest
  {
    assert entries[i..][1..] == entries[i + 1..];
    ValueItems(entries[i].key, entries[i].value, own);
  }

  lemma {:induction false} NextItem(name: string, items: seq<Xml>, j: nat, own: Bindings)
    requires j < |items|
    ensures ExpandItems(name, items[j..], own) == [Expand(name, items[j], own)] + ExpandItems(name, items[j + 1..], own)
  {
    assert items[j..][1..] == items[j + 1..];
  }

  lemma {:induction false} NoItems(name: string, items: seq<Xml>, own: Bindings)
    ensures ExpandItems(name, items[|items|..], own) == [] && items[0..] == items
  {
  }

  lemma {:induction false} NoEntries(entries: seq<Entry>, own: Bindings)
    ensures ExpandEntries(entries[|entries|..], own) == [] && entries[0..] == entries
  {
  }

  lemma {:induction false} FirstNamedConcat(a: seq<Element>, b: seq<Element>, name: QName)
    ensures FirstNamed(a + b, name) == Else(FirstNamed(a, name), FirstNamed(b, name))
  {
    if a == [] {
      assert a + b == b;
    } else {
      assert (a + b)[1..] == a[1..] + b;
      FirstNamedConcat(a[1..], b, name);
    }
  }

  lemma {:induction false} FoundConcat(a: seq<Element>, b: seq<Element>, target: QName)
    ensures Found(a + b, target) == Else(Found(a, target), Found(b, target))
  {
    PreorderConcat(a, b);
    FirstStatusConcat(PreorderAll(a), PreorderAll(b), target);
  }

  lemma {:induction false} PreorderConcat(a: seq<Element>, b: seq<Element>)
    ensures PreorderAll(a + b) == PreorderAll(a) + PreorderAll(b)
  {
    if a == [] {
      assert a + b == b;
    } else {
      assert (a + b)[1..] == a[1..] + b;
      PreorderConcat(a[1..], b);
    }
  }

  predicate Names(name: string, namespaces: Bindings, target: QName) {
    ResolveQName(name, namespaces) == Some(Resolved(Some(target.namespace), target.localName))
  }

  lemma {:induction false} NamesExpanded(name: string, namespaces: Bindings, target: QName)
    requires target.namespace != ""
    ensures Names(name, namespaces, target) <==> ExpandedName(name, namespaces) == Some(target)
  {
  }

  /** One item of the search for a name: found here, or searched for in the rest. */
  lemma {:induction false} NamedStep(name: string, items: seq<Xml>, j: nat, own: Bindings, target: QName)
    requires j < |items| && target.namespace != ""
    ensures FirstNamed(ExpandItems(name, items[j..], own), target)
      == if Names(name, Scope(Entries(items[j]), own), target) then Some(Expand(name, items[j], own))
         else FirstNamed(ExpandItems(name, items[j + 1..], own), target)
  {
    NextItem(name, items, j, own);
    FirstNamedHead(Expand(name, items[j], own), ExpandItems(name, items[j + 1..], own), target);
    NamesExpanded(name, Scope(Entries(items[j]), own), target);
  }

  datatype Direct = Direct(value: Xml, namespaces: Bindings)

  /** The element that was found, as the standard sees it. */
  function Shown(found: Option<Direct>, target: QName): Option<Element> {
    if found.None? then None
    else
      var value := found.value.value;
      Some(Element(Some(target), value.Node?, Children(value, found.value.namespaces), OwnText(value)))
  }

  /** The inner loop: the same-named items of one entry. */
  method DirectItem(name: string, items: seq<Xml>, namespaces: Bindings, target: QName) returns (found: Option<Direct>)
    requires target.namespace != ""
    ensures FirstNamed(ExpandItems(name, items, namespaces), target) == Shown(found, target)
  {
    NoItems(name, items, namespaces);
    ghost var goal := FirstNamed(ExpandItems(name, items, namespaces), target);
    for j := 0 to |items|
      invariant goal == FirstNamed(ExpandItems(name, items[j..], namespaces), target)
    {
      var childNamespaces := NamespaceDeclarations(AsNode(items[j]), namespaces);
      NamedStep(name, items, j, namespaces, target);
      NamesExpanded(name, childNamespaces, target);
      if Names(name, childNamespaces, target) {
        return Some(Direct(items[j], childNamespaces));
      }
    }
    return None;
  }

  method DirectElement(node: Option<seq<Entry>>, namespaces: Bindings, target: QName) returns (found: Option<Direct>)
    requires target.namespace != ""
    ensures var entries := if node.Some? then node.value else [];
      FirstNamed(ExpandEntries(entries, namespaces), target) == Shown(found, target)
  {
    if node.None? { return None; }
    var entries := node.value;
    NoEntries(entries, namespaces);
    ghost var goal := FirstNamed(ExpandEntries(entries, namespaces), target);
    for i := 0 to |entries|
      invariant goal == FirstNamed(ExpandEntries(entries[i..], namespaces), target)
    {
      var name, items := entries[i].key, AsArray(entries[i].value);
      EnterEntry(entries, i, namespaces);
      if Skipped(name) { continue; }
      FirstNamedConcat(ExpandItems(name, items, namespaces), ExpandEntries(entries[i + 1..], namespaces), target);
      found := DirectItem(name, items, namespaces, target);
      if found.Some? { return; }
    }
    return None;
  }

  /** The inner `some`: does one of the same-named items have the name? */
  method MatchesItem(name: string, items: seq<Xml>, namespaces: Bindings, target: QName) returns (matches: bool)
    requires target.namespace != ""
    ensures matches == HasNamed(ExpandItems(name, items, namespaces), target)
  {
    NoItems(name, items, namespaces);
    ghost var goal := HasNamed(ExpandItems(name, items, namespaces), target);
    for j := 0 to |items|
      invariant goal == HasNamed(ExpandItems(name, items[j..], namespaces), target)
    {
      var itemNamespaces := NamespaceDeclarations(AsNode(items[j]), namespaces);
      NamedStep(name, items, j, namespaces, target);
      if Names(name, itemNamespaces, target) { return true; }
    }
    return false;
  }

  method MatchesProperty(entries: seq<Entry>, namespaces: Bindings, target: QName) returns (matches: bool)
    requires target.namespace != ""
    ensures matches == HasNamed(ExpandEntries(entries, namespaces), target)
  {
    NoEntries(entries, namespaces);
    ghost var goal := HasNamed(ExpandEntries(entries, namespaces), target);
    for i := 0 to |entries|
      invariant goal == HasNamed(ExpandEntries(entries[i..], namespaces), target)
    {
      var name, items := entries[i].key, AsArray(entries[i].value);
      EnterEntry(entries, i, namespaces);
      if Skipped(name) { continue; }
      FirstNamedConcat(ExpandItems(name, items, namespaces), ExpandEntries(entries[i + 1..], namespaces), target);
      matches := MatchesItem(name, items, namespaces, target);
      if matches { return; }
    }
    return false;
  }

  /** The expanded form of an element whose own scope is already known. */
  function Expanded(name: string, child: Xml, own: Bindings): Element {
    Element(ExpandedName(name, own), child.Node?, Children(child, own), OwnText(child))
  }

  /** The status one child reports, if it is a propstat that mentions the property. */
  method ReportedStatus(name: string, child: Xml, namespaces: Bindings, target: QName) returns (status: Option<nat>)
    requires target.namespace != ""
    ensures status == StatusOf(Expanded(name, child, namespaces), target)
  {
    NamesExpanded(name, namespaces, PROPSTAT);
    if !Names(name, namespaces, PROPSTAT) { return None; }
    var property := DirectElement(AsNode(child), namespaces, PROP);
    if property.None? || !property.value.value.Node? { return None; }
    var matches := MatchesProperty(property.value.value.entries, property.value.namespaces, target);
    if !matches { return None; }
    var statusElement := DirectElement(AsNode(child), namespaces, STATUS);
    if statusElement.None? { return None; }
    var text := OwnText(statusElement.value.value);
    if text.None? { return None; }
    return MatchCode(text.value);
  }

  lemma {:induction false} SearchStep(name: string, items: seq<Xml>, j: nat, own: Bindings, target: QName)
    requires j < |items|
    ensures var childNamespaces := Scope(Entries(items[j]), own);
      Found(ExpandItems(name, items[j..], own), target)
      == Else(StatusOf(Expanded(name, items[j], childNamespaces), target),
              Else(FirstStatus(Descendants(items[j], childNamespaces), target),
                   Found(ExpandItems(name, items[j + 1..], own), target)))
  {
    NextItem(name, items, j, own);
    FoundHead(Expand(name, items[j], own), ExpandItems(name, items[j + 1..], own), target);
    ScopeAgain(Entries(items[j]), own);
  }

  lemma {:induction false} ItemIsSmaller(value: Xml, i: nat)
    requires value.Node? && i < |value.entries|
    ensures forall item <- AsArray(value.entries[i].value) :: item < value
  {
    var inner := value.entries[i].value;
    assert inner < value;
  }

  /** The inner loop: the same-named items of one entry of `whole`, each with all it contains. */
  method FindInItems(ghost whole: Xml, name: string, items: seq<Xml>, namespaces: Bindings, target: QName)
    returns (status: Option<nat>)
    requires target.namespace != "" && forall item <- items :: item < whole
    ensures status == Found(ExpandItems(name, items, namespaces), target)
    decreases whole, 0
  {
    NoItems(name, items, namespaces);
    ghost var goal := Found(ExpandItems(name, items, namespaces), target);
    for j := 0 to |items|
      invariant goal == Found(ExpandItems(name, items[j..], namespaces), target)
    {
      var child := items[j];
      var childNamespaces := NamespaceDeclarations(AsNode(child), namespaces);
      SearchStep(name, items, j, namespaces, target);
      var reported := ReportedStatus(name, child, childNamespaces, target);
      if reported.Some? { return reported; }
      assert child in items && child < whole;
      var nested := FindPropertyStatus(child, childNamespaces, target);
      if nested.Some? { return nested; }
    }
    return None;
  }

  method FindPropertyStatus(value: Xml, inherited: Bindings, target: QName) returns (status: Option<nat>)
    requires target.namespace != ""
    ensures status == FirstStatus(Descendants(value, inherited), target)
    decreases value, 1
  {
    if !value.Node? { return None; }
    var entries := value.entries;
    var namespaces := NamespaceDeclarations(Some(entries), inherited);
    NoEntries(entries, namespaces);
    ghost var goal := Found(ExpandEntries(entries, namespaces), target);
    for i := 0 to |entries|
      invariant goal == Found(ExpandEntries(entries[i..], namespaces), target)
    {
      var name, items := entries[i].key, AsArray(entries[i].value);
      EnterEntry(entries, i, namespaces);
      if Skipped(name) { continue; }
      FoundConcat(ExpandItems(name, items, namespaces), ExpandEntries(entries[i + 1..], namespaces), target);
      ItemIsSmaller(value, i);
      status := FindInItems(value, name, items, namespaces, target);
      if status.Some? { return; }
    }
    return None;
  }

  // ---------- Text put into requests ----------

  function ReplaceAll(s: string, c: char, entity: string): string {
    if s == "" then "" else (if s[0] == c then entity else [s[0]]) + ReplaceAll(s[1..], c, entity)
  }

  /** The three replacements one after the other, ampersands first. */
  function EscapeXmlText(s: string): string {
    ReplaceAll(ReplaceAll(ReplaceAll(s, '&', "&amp;"), '<', "&lt;"), '>', "&gt;")
  }

  function EscapeChar(c: char): string {
    if c == '&' then "&amp;" else if c == '<' then "&lt;" else if c == '>' then "&gt;" else [c]
  }

  function EscapeEach(s: string): string {
    if s == "" then "" else EscapeChar(s[0]) + EscapeEach(s[1..])
  }

  /** What an XML reader makes of character data; `None` when it is not character data. */
  function ReadText(s: string): Option<string> {
    if s == "" then Some("")
    else if "&amp;" <= s then Prepend('&', ReadText(s[5..]))
    else if "&lt;" <= s then Prepend('<', ReadText(s[4..]))
    else if "&gt;" <= s then Prepend('>', ReadText(s[4..]))
    else if s[0] in "&<>" then None
    else Prepend(s[0], ReadText(s[1..]))
  }

  lemma {:induction false} ReplaceAllConcat(a: string, b: string, c: char, entity: string)
    ensures ReplaceAll(a + b, c, entity) == ReplaceAll(a, c, entity) + ReplaceAll(b, c, entity)
  {
    if a == "" {
      assert a + b == b;
    } else {
      assert (a + b)[1..] == a[1..] + b;
      ReplaceAllConcat(a[1..], b, c, entity);
    }
  }

  lemma {:induction false} ReplaceAllAbsent(s: string, c: char, entity: string)
    requires forall i :: 0 <= i < |s| ==> s[i] != c
    ensures ReplaceAll(s, c, entity) == s
  {
    if s != "" {
      ReplaceAllAbsent(s[1..], c, entity);
    }
  }

  lemma {:induction false} ReplaceAllOne(c: char, d: char, entity: string)
    ensures ReplaceAll([c], d, entity) == if c == d then entity else [c]
  {
    assert ReplaceAll([c][1..], d, entity) == "";
  }

  lemma {:induction false} EscapeOne(c: char)
    ensures EscapeXmlText([c]) == EscapeChar(c)
  {
    ReplaceAllOne(c, '&', "&amp;");
    if c == '&' {
      ReplaceAllAbsent("&amp;", '<', "&lt;");
      ReplaceAllAbsent("&amp;", '>', "&gt;");
    } else {
      ReplaceAllOne(c, '<', "&lt;");
      if c == '<' {
        ReplaceAllAbsent("&lt;", '>', "&gt;");
      } else {
        ReplaceAllOne(c, '>', "&gt;");
      }
    }
  }

  lemma {:induction false} EscapeIsPerCharacter(s: string)
    ensures EscapeXmlText(s) == EscapeEach(s)
  {
    if s != "" {
      assert s == [s[0]] + s[1..];
      EscapeConcat([s[0]], s[1..]);
      EscapeOne(s[0]);
      EscapeIsPerCharacter(s[1..]);
    }
  }

  lemma {:induction false} EscapeConcat(a: string, b: string)
    ensures EscapeXmlText(a + b) == EscapeXmlText(a) + EscapeXmlText(b)
  {
    ReplaceAllConcat(a, b, '&', "&amp;");
    var a1, b1 := ReplaceAll(a, '&', "&amp;"), ReplaceAll(b, '&', "&amp;");
    ReplaceAllConcat(a1, b1, '<', "&lt;");
    ReplaceAllConcat(ReplaceAll(a1, '<', "&lt;"), ReplaceAll(b1, '<', "&lt;"), '>', "&gt;");
  }

  lemma {:induction false} ReadOne(c: char, rest: string)
    ensures ReadText(EscapeChar(c) + rest) == Prepend(c, ReadText(rest))
  {
    var s := EscapeChar(c) + rest;
    assert s[|EscapeChar(c)|..] == rest;
    if c == '&' {
      assert s[..5] == "&amp;";
    } else if c == '<' {
      assert s[1] == 'l';
      assert s[..4] == "&lt;";
    } else if c == '>' {
      assert s[1] == 'g';
      assert s[..4] == "&gt;";
    } else {
      assert s[0] == c;
    }
  }

  /** Escaped text reads back as the text it came from: no markup, nothing lost. */
  lemma {:induction false} EscapedTextReadsBack(s: string)
    ensures ReadText(EscapeXmlText(s)) == Some(s)
  {
    EscapeIsPerCharacter(s);
    if s != "" {
      EscapeIsPerCharacter(s[1..]);
      EscapedTextReadsBack(s[1..]);
      ReadOne(s[0], EscapeEach(s[1..]));
      assert [s[0]] + s[1..] == s;
    }
  }

  // ---------- Renaming prefixes ----------

  predicate PrefixName(prefix: string) {
    ':' !in prefix && (prefix == "" || (prefix[0] != '@' && prefix[0] != '#'))
  }

  predicate LocalName(name: string) {
    PrefixName(name) && name != ""
  }

  function PrefixOf(key: string): string {
    if IndexOf(key, ':') == |key| then "" else key[..IndexOf(key, ':')]
  }

  function LocalOf(key: string): string {
    if IndexOf(key, ':') == |key| then key else key[IndexOf(key, ':') + 1..]
  }

  function Spell(prefix: string, localName: string): string {
    if prefix == "" then localName else prefix + (":" + localName)
  }

  function DeclarationKey(prefix: string): string {
    if prefix == "" then "@_xmlns" else "@_xmlns:" + prefix
  }

  /** Names are built as the standard demands: one colon at most, ordinary parts. */
  predicate NamespaceWellFormed(value: Xml) {
    match value
    case Node(entries) =>
      forall i :: 0 <= i < |entries| ==> KeyWellFormed(entries[i].key) && NamespaceWellFormed(entries[i].value)
    case Many(items) => forall i :: 0 <= i < |items| ==> NamespaceWellFormed(items[i])
    case _ => true
  }

  predicate KeyWellFormed(key: string) {
    if IsDeclaration(key) then PrefixName(DeclaredPrefix(key))
    else Skipped(key) || (PrefixName(PrefixOf(key)) && LocalName(LocalOf(key)))
  }

  /** One prefix for another everywhere, the empty one included; no two prefixes merge. */
  ghost predicate Renaming(rho: string -> string) {
    && (forall p | PrefixName(p) :: PrefixName(rho(p)))
    && (forall p, q | PrefixName(p) && PrefixName(q) && rho(p) == rho(q) :: p == q)
  }

  function RenameKey(rho: string -> string, key: string): string {
    if IsDeclaration(key) then DeclarationKey(rho(DeclaredPrefix(key)))
    else if Skipped(key) then key
    else Spell(rho(PrefixOf(key)), LocalOf(key))
  }

  function Rename(rho: string -> string, value: Xml): Xml
    decreases value
  {
    match value
    case Node(entries) => Node(RenameEntries(rho, entries))
    case Many(items) => Many(RenameItems(rho, items))
    case _ => value
  }

  function RenameEntries(rho: string -> string, entries: seq<Entry>): seq<Entry>
    decreases entries
  {
    if entries == [] then []
    else [Entry(RenameKey(rho, entries[0].key), Rename(rho, entries[0].value))] + RenameEntries(rho, entries[1..])
  }

  function RenameItems(rho: string -> string, items: seq<Xml>): seq<Xml>
    decreases items
  {
    if items == [] then [] else [Rename(rho, items[0])] + RenameItems(rho, items[1..])
  }

  lemma {:induction false} IndexAfter(a: string, c: char, b: string)
    requires c !in a
    ensures IndexOf(a + ([c] + b), c) == |a|
  {
    var s := a + ([c] + b);
    if a != "" {
      assert s[0] == a[0] && s[1..] == a[1..] + ([c] + b);
      IndexAfter(a[1..], c, b);
    }
  }

  lemma {:induction false} SpellParts(prefix: string, localName: string)
    requires PrefixName(prefix) && LocalName(localName)
    ensures !Skipped(Spell(prefix, localName)) && !IsDeclaration(Spell(prefix, localName))
    ensures PrefixOf(Spell(prefix, localName)) == prefix && LocalOf(Spell(prefix, localName)) == localName
  {
    var key := Spell(prefix, localName);
    if prefix != "" {
      IndexAfter(prefix, ':', localName);
      assert key == prefix + (":" + localName);
      assert key[..|prefix|] == prefix && key[|prefix| + 1..] == localName;
      assert key[0] == prefix[0];
    } else {
      assert IndexOf(key, ':') == |key|;
    }
  }

  lemma {:induction false} DeclarationParts(prefix: string)
    ensures IsDeclaration(DeclarationKey(prefix)) && Skipped(DeclarationKey(prefix))
    ensures DeclaredPrefix(DeclarationKey(prefix)) == prefix
  {
  }

  lemma {:induction false} ResolvedByParts(key: string, namespaces: Bindings)
    ensures ExpandedName(key, namespaces)
         == var namespace := Lookup(namespaces, PrefixOf(key));
            if namespace.None? || namespace.value == "" then None else Some(QName(namespace.value, LocalOf(key)))
  {
  }

  /** Two scopes bind a prefix and its new name alike. */
  ghost predicate Alike(rho: string -> string, a: Bindings, b: Bindings) {
    forall p {:trigger rho(p)} | PrefixName(p) :: Lookup(a, p) == Lookup(b, rho(p))
  }

  lemma {:induction false} DeclareAlike(rho: string -> string, entry: Entry, a: Bindings, b: Bindings)
    requires Renaming(rho) && Alike(rho, a, b) && KeyWellFormed(entry.key)
    ensures Alike(rho, Declare(entry, a), Declare(Entry(RenameKey(rho, entry.key), Rename(rho, entry.value)), b))
  {
    if IsDeclaration(entry.key) {
      DeclarationParts(rho(DeclaredPrefix(entry.key)));
    } else if !Skipped(entry.key) {
      SpellParts(rho(PrefixOf(entry.key)), LocalOf(entry.key));
    }
  }

  lemma {:induction false} ScopeAlike(rho: string -> string, entries: seq<Entry>, a: Bindings, b: Bindings)
    requires Renaming(rho) && Alike(rho, a, b) && NamespaceWellFormed(Node(entries))
    ensures Alike(rho, Scope(entries, a), Scope(RenameEntries(rho, entries), b))
  {
    if entries != [] {
      var renamed := RenameEntries(rho, entries);
      assert renamed[1..] == RenameEntries(rho, entries[1..]);
      DeclareAlike(rho, entries[0], a, b);
      ScopeAlike(rho, entries[1..], Declare(entries[0], a), Declare(renamed[0], b));
    }
  }

  lemma {:induction false} NameAlike(rho: string -> string, key: string, a: Bindings, b: Bindings)
    requires Renaming(rho) && Alike(rho, a, b) && KeyWellFormed(key) && !Skipped(key)
    ensures !Skipped(RenameKey(rho, key)) && ExpandedName(RenameKey(rho, key), b) == ExpandedName(key, a)
  {
    SpellParts(rho(PrefixOf(key)), LocalOf(key));
    ResolvedByParts(key, a);
    ResolvedByParts(RenameKey(rho, key), b);
  }

  lemma {:induction false} SkippedAlike(rho: string -> string, key: string)
    requires Renaming(rho) && KeyWellFormed(key)
    ensures Skipped(RenameKey(rho, key)) <==> Skipped(key)
    ensures RenameKey(rho, key) == "#text" <==> key == "#text"
  {
    if IsDeclaration(key) {
      DeclarationParts(rho(DeclaredPrefix(key)));
    } else if !Skipped(key) {
      SpellParts(rho(PrefixOf(key)), LocalOf(key));
    }
  }

  lemma {:induction false} PropertyAlike(rho: string -> string, entries: seq<Entry>)
    requires Renaming(rho) && NamespaceWellFormed(Node(entries))
    ensures Property(RenameEntries(rho, entries), "#text") == Rename(rho, Property(entries, "#text"))
  {
    if entries != [] {
      SkippedAlike(rho, entries[0].key);
      assert RenameEntries(rho, entries)[1..] == RenameEntries(rho, entries[1..]);
      PropertyAlike(rho, entries[1..]);
    }
  }

  lemma {:induction false} TextAlike(rho: string -> string, value: Xml)
    requires Renaming(rho) && NamespaceWellFormed(value)
    ensures OwnText(Rename(rho, value)) == OwnText(value)
  {
    if value.Node? {
      PropertyAlike(rho, value.entries);
    }
  }

  lemma {:induction false} ExpandAlike(rho: string -> string, key: string, child: Xml, a: Bindings, b: Bindings)
    requires Renaming(rho) && Alike(rho, a, b) && KeyWellFormed(key) && !Skipped(key) && NamespaceWellFormed(child)
    ensures Expand(RenameKey(rho, key), Rename(rho, child), b) == Expand(key, child, a)
    decreases child, 1
  {
    if child.Node? {
      ScopeAlike(rho, child.entries, a, b);
    }
    var ownA, ownB := Scope(Entries(child), a), Scope(Entries(Rename(rho, child)), b);
    NameAlike(rho, key, ownA, ownB);
    TextAlike(rho, child);
    if child.Node? {
      EntriesAlike(rho, child.entries, ownA, ownB);
    }
  }

  lemma {:induction false} EntriesAlike(rho: string -> string, entries: seq<Entry>, a: Bindings, b: Bindings)
    requires Renaming(rho) && Alike(rho, a, b) && NamespaceWellFormed(Node(entries))
    ensures ExpandEntries(RenameEntries(rho, entries), b) == ExpandEntries(entries, a)
    decreases entries, 0
  {
    if entries != [] {
      var entry := entries[0];
      SkippedAlike(rho, entry.key);
      assert RenameEntries(rho, entries)[1..] == RenameEntries(rho, entries[1..]);
      if !Skipped(entry.key) {
        ValueAlike(rho, entry.key, entry.value, a, b);
      }
      EntriesAlike(rho, entries[1..], a, b);
    }
  }

  lemma {:induction false} ValueAlike(rho: string -> string, key: string, value: Xml, a: Bindings, b: Bindings)
    requires Renaming(rho) && Alike(rho, a, b) && KeyWellFormed(key) && !Skipped(key) && NamespaceWellFormed(value)
    ensures ExpandValue(RenameKey(rho, key), Rename(rho, value), b) == ExpandValue(key, value, a)
    decreases value, 2
  {
    match value
    case Null =>
    case Many(items) => ItemsAlike(rho, key, items, a, b);
    case _ => ExpandAlike(rho, key, value, a, b);
  }

  lemma {:induction false} ItemsAlike(rho: string -> string, key: string, items: seq<Xml>, a: Bindings, b: Bindings)
    requires Renaming(rho) && Alike(rho, a, b) && KeyWellFormed(key) && !Skipped(key)
    requires forall i :: 0 <= i < |items| ==> NamespaceWellFormed(items[i])
    ensures ExpandItems(RenameKey(rho, key), RenameItems(rho, items), b) == ExpandItems(key, items, a)
    decreases items, 0
  {
    if items != [] {
      assert RenameItems(rho, items)[1..] == RenameItems(rho, items[1..]);
      ExpandAlike(rho, key, items[0], a, b);
      ItemsAlike(rho, key, items[1..], a, b);
    }
  }

  /** Renaming prefixes leaves every expanded name, and so the answer, as it was. */
  lemma {:induction false} RenamingIsInvisible(rho: string -> string, document: Xml, target: QName)
    requires Renaming(rho) && NamespaceWellFormed(document)
    ensures Descendants(Rename(rho, document), map[]) == Descendants(document, map[])
    ensures FirstStatus(Descendants(Rename(rho, document), map[]), target)
      == FirstStatus(Descendants(document, map[]), target)
  {
    var none: Bindings := map[];
    if document.Node? {
      ScopeAlike(rho, document.entries, none, none);
      EntriesAlike(rho, document.entries, Scope(document.entries, none),
        Scope(RenameEntries(rho, document.entries), none));
    }
  }
}
