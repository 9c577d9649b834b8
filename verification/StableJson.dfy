/** The serialisation that decides whether two normalised time zones are the same text.
    Its partner is `Parse`, a reader that recovers the meaning of every value written. */
module StableJson {
  import opened Common

  /** A JavaScript value as it reaches the serialiser. An object is its entries in
      insertion order; a number is its shortest decimal text. */
  datatype Json =
    | Undefined
    | Null
    | Bool(b: bool)
    | Num(text: string)
    | Str(s: string)
    | Arr(items: seq<Json>)
    | Obj(entries: seq<Entry>)

  datatype Entry = Entry(key: string, value: Json)

  /** What a value means once the order of object keys is forgotten. */
  datatype Value =
    | VUndefined
    | VNull
    | VBool(b: bool)
    | VNum(text: string)
    | VStr(s: string)
    | VArr(items: seq<Value>)
    | VObj(members: map<string, Value>)

  function Meaning(j: Json): Value {
    match j
    case Undefined => VUndefined
    case Null => VNull
    case Bool(b) => VBool(b)
    case Num(text) => VNum(text)
    case Str(s) => VStr(s)
    case Arr(items) => VArr(Meanings(items))
    case Obj(entries) => VObj(Members(entries))
  }

  function Meanings(items: seq<Json>): (r: seq<Value>)
    ensures |r| == |items|
    ensures forall i :: 0 <= i < |items| ==> r[i] == Meaning(items[i])
  {
    if items == [] then [] else [Meaning(items[0])] + Meanings(items[1..])
  }

  function Members(entries: seq<Entry>): map<string, Value> {
    if entries == [] then map[]
    else Members(entries[1..])[entries[0].key := Meaning(entries[0].value)]
  }

  predicate NumberChar(c: char) {
    IsDigit(c) || c in "+-.e"
  }

  predicate NumberText(text: string) {
    && text != ""
    && (IsDigit(text[0]) || text[0] == '-')
    && forall i :: 0 <= i < |text| ==> NumberChar(text[i])
  }

  predicate DistinctKeys(entries: seq<Entry>) {
    forall i, j :: 0 <= i < j < |entries| ==> entries[i].key != entries[j].key
  }

  /** Objects have distinct keys and numbers are finite. */
  predicate WellFormed(j: Json) {
    match j
    case Num(text) => NumberText(text)
    case Arr(items) => forall i :: 0 <= i < |items| ==> WellFormed(items[i])
    case Obj(entries) =>
      && DistinctKeys(entries)
      && forall i :: 0 <= i < |entries| ==> WellFormed(entries[i].value)
    case _ => true
  }

  // ---------- Writing ----------

  function HexDigit(n: int): char
    requires 0 <= n < 16
  {
    if n < 10 then ('0' as int + n) as char else ('a' as int + n - 10) as char
  }

  function EscapeChar(c: char): string {
    if c == '"' then "\\\""
    else if c == '\\' then "\\\\"
    else if c as int == 8 then "\\b"
    else if c as int == 9 then "\\t"
    else if c as int == 10 then "\\n"
    else if c as int == 12 then "\\f"
    else if c as int == 13 then "\\r"
    else if c as int < 32 then "\\u00" + [HexDigit(c as int / 16), HexDigit(c as int % 16)]
    else [c]
  }

  function EscapeText(s: string): string {
    if s == "" then "" else EscapeChar(s[0]) + EscapeText(s[1..])
  }

  function Quote(s: string): string {
    "\"" + EscapeText(s) + "\""
  }

  /** One object member as written: its key and the text of its value. */
  datatype Member = Member(key: string, text: string)

  /** Members are ordered by key; two members of one object never share a key. */
  function MemberOrder(le: (string, string) -> bool): (Member, Member) -> bool {
    (x: Member, y: Member) => if x.key == y.key then le(x.text, y.text) else le(x.key, y.key)
  }

  function MemberText(m: Member): string {
    Quote(m.key) + ":" + m.text
  }

  function MemberLines(ms: seq<Member>): (r: seq<string>)
    ensures |r| == |ms|
  {
    if ms == [] then [] else [MemberText(ms[0])] + MemberLines(ms[1..])
  }

  function StableJson(j: Json, le: (string, string) -> bool): string {
    match j
    case Undefined => "undefined"
    case Null => "null"
    case Bool(b) => if b then "true" else "false"
    case Num(text) => text
    case Str(s) => Quote(s)
    case Arr(items) => "[" + Join(Texts(items, le), ",") + "]"
    case Obj(entries) =>
      "{" + Join(MemberLines(Sort(MemberTexts(entries, le), MemberOrder(le))), ",") + "}"
  }

  function Texts(items: seq<Json>, le: (string, string) -> bool): (r: seq<string>)
    ensures |r| == |items|
    ensures forall i :: 0 <= i < |items| ==> r[i] == StableJson(items[i], le)
  {
    if items == [] then [] else [StableJson(items[0], le)] + Texts(items[1..], le)
  }

  function MemberTexts(entries: seq<Entry>, le: (string, string) -> bool): (r: seq<Member>)
    ensures |r| == |entries|
    ensures forall i :: 0 <= i < |entries| ==>
      r[i] == Member(entries[i].key, StableJson(entries[i].value, le))
  {
    if entries == [] then []
    else [Member(entries[0].key, StableJson(entries[0].value, le))] + MemberTexts(entries[1..], le)
  }

  // ---------- Reading ----------

  /** Read the rest of a string literal whose opening quote is already consumed. */
  function ParseQuoted(s: string): (r: Option<(string, string)>)
    ensures r.Some? ==> |r.value.1| < |s|
  {
    if s == "" then None
    else if s[0] == '"' then Some(("", s[1..]))
    else if s[0] != '\\' then Prefixed(s[0], ParseQuoted(s[1..]))
    else if |s| < 2 then None
    else if s[1] == 'u' then
      if |s| < 6 then None
      else
        var code := if IsHex(s[4]) && IsHex(s[5]) then HexValue(s[4]) * 16 + HexValue(s[5]) else 0;
        if code >= 32 then None else Prefixed(code as char, ParseQuoted(s[6..]))
    else Prefixed(Unescaped(s[1]), ParseQuoted(s[2..]))
  }

  function Prefixed(c: char, r: Option<(string, string)>): Option<(string, string)> {
    match r
    case None => None
    case Some((t, rest)) => Some(([c] + t, rest))
  }

  function Unescaped(c: char): char {
    if c == 'b' then 8 as char
    else if c == 't' then 9 as char
    else if c == 'n' then 10 as char
    else if c == 'f' then 12 as char
    else if c == 'r' then 13 as char
    else c
  }

  predicate Delimiter(c: char) {
    c == ',' || c == ']' || c == '}'
  }

  predicate Ends(s: string) {
    s == "" || Delimiter(s[0])
  }

  function TokenLength(s: string): (n: nat)
    ensures n <= |s|
  {
    if Ends(s) then 0 else 1 + TokenLength(s[1..])
  }

  function Scalar(token: string): Value {
    if token == "undefined" then VUndefined
    else if token == "null" then VNull
    else if token == "true" then VBool(true)
    else if token == "false" then VBool(false)
    else VNum(token)
  }

  /** Read one value from the front of a text. */
  function Parse(s: string): (r: Option<(Value, string)>)
    ensures r.Some? ==> |r.value.1| < |s|
    decreases |s|, 0
  {
    if Ends(s) then None
    else if s[0] == '"' then
      match ParseQuoted(s[1..])
      case None => None
      case Some((t, rest)) => Some((VStr(t), rest))
    else if s[0] == '[' then
      if |s| > 1 && s[1] == ']' then Some((VArr([]), s[2..]))
      else
        match ParseItems(s[1..])
        case None => None
        case Some((vs, rest)) => Some((VArr(vs), rest))
    else if s[0] == '{' then
      if |s| > 1 && s[1] == '}' then Some((VObj(map[]), s[2..]))
      else
        match ParseMembers(s[1..])
        case None => None
        case Some((m, rest)) => Some((VObj(m), rest))
    else
      var n := TokenLength(s);
      Some((Scalar(s[..n]), s[n..]))
  }

  function ParseItems(s: string): (r: Option<(seq<Value>, string)>)
    ensures r.Some? ==> |r.value.1| < |s|
    decreases |s|, 1
  {
    match Parse(s)
    case None => None
    case Some((v, rest)) =>
      if rest == "" then None
      else if rest[0] == ']' then Some(([v], rest[1..]))
      else if rest[0] != ',' then None
      else
        match ParseItems(rest[1..])
        case None => None
        case Some((vs, after)) => Some(([v] + vs, after))
  }

  function ParseMembers(s: string): (r: Option<(map<string, Value>, string)>)
    ensures r.Some? ==> |r.value.1| < |s|
    decreases |s|, 1
  {
    if s == "" || s[0] != '"' then None
    else
      match ParseQuoted(s[1..])
      case None => None
      case Some((key, colon)) =>
        if colon == "" || colon[0] != ':' then None
        else
          match Parse(colon[1..])
          case None => None
          case Some((v, rest)) =>
            if rest == "" then None
            else if rest[0] == '}' then Some((map[key := v], rest[1..]))
            else if rest[0] != ',' then None
            else
              match ParseMembers(rest[1..])
              case None => None
              case Some((m, after)) => Some((m[key := v], after))
  }

  // ---------- Every written text is read back ----------

  lemma {:induction false} EscapedCharReadsBack(c: char, tail: string)
    ensures ParseQuoted(EscapeChar(c) + tail) == Prefixed(c, ParseQuoted(tail))
  {
    var head := EscapeChar(c);
    var all := head + tail;
    assert all[|head|..] == tail;
    if |head| == 6 {
      var n := c as int;
      assert all[1] == 'u' && all[4] == HexDigit(n / 16) && all[5] == HexDigit(n % 16);
      assert HexValue(all[4]) * 16 + HexValue(all[5]) == n;
    } else if |head| == 2 {
      assert all[0] == '\\' && all[1] == head[1] && all[1] != 'u';
    } else {
      assert all[0] == c;
    }
  }

  /** Escaping loses nothing: a literal followed by anything reads back exactly. */
  lemma {:induction false} QuotedReadsBack(s: string, x: string)
    ensures ParseQuoted(EscapeText(s) + "\"" + x) == Some((s, x))
  {
    if s == "" {
      assert EscapeText(s) + "\"" + x == "\"" + x;
    } else {
      QuotedReadsBack(s[1..], x);
      var tail := EscapeText(s[1..]) + "\"" + x;
      EscapedCharReadsBack(s[0], tail);
      assert EscapeText(s) + "\"" + x == EscapeChar(s[0]) + tail;
      assert [s[0]] + s[1..] == s;
    }
  }

  lemma {:induction false} TokenReadsBack(token: string, x: string)
    requires Ends(x) && forall i :: 0 <= i < |token| ==> !Delimiter(token[i])
    ensures TokenLength(token + x) == |token|
  {
    if token == "" {
      assert token + x == x;
    } else {
      TokenReadsBack(token[1..], x);
      assert (token + x)[1..] == token[1..] + x;
    }
  }

  lemma {:induction false} TokenTextReadsBack(token: string, x: string)
    requires Ends(x) && token != "" && token[0] !in "\"[{"
    requires forall i :: 0 <= i < |token| ==> !Delimiter(token[i])
    ensures !Ends(token) && Parse(token + x) == Some((Scalar(token), x))
  {
    TokenReadsBack(token, x);
    assert (token + x)[0] == token[0];
    assert (token + x)[..|token|] == token && (token + x)[|token|..] == x;
  }

  lemma {:induction false} AfterFirst(c: char, rest: string)
    ensures ([c] + rest)[0] == c && ([c] + rest)[1..] == rest
  {
  }

  lemma {:induction false} StringStep(s: string, t: string, rest: string)
    requires s != "" && s[0] == '"' && ParseQuoted(s[1..]) == Some((t, rest))
    ensures Parse(s) == Some((VStr(t), rest))
  {
  }

  lemma {:induction false} ArrayStep(s: string, items: seq<Value>, rest: string)
    requires |s| > 1 && s[0] == '[' && s[1] != ']' && ParseItems(s[1..]) == Some((items, rest))
    ensures Parse(s) == Some((VArr(items), rest))
  {
  }

  lemma {:induction false} ObjectStep(s: string, members: map<string, Value>, rest: string)
    requires |s| > 1 && s[0] == '{' && s[1] != '}' && ParseMembers(s[1..]) == Some((members, rest))
    ensures Parse(s) == Some((VObj(members), rest))
  {
  }

  lemma {:induction false} LastItemStep(s: string, v: Value, x: string)
    requires Parse(s) == Some((v, "]" + x))
    ensures ParseItems(s) == Some(([v], x))
  {
    AfterFirst(']', x);
  }

  lemma {:induction false} NextItemStep(s: string, v: Value, tail: string, vs: seq<Value>, x: string)
    requires Parse(s) == Some((v, "," + tail)) && ParseItems(tail) == Some((vs, x))
    ensures ParseItems(s) == Some(([v] + vs, x))
  {
    AfterFirst(',', tail);
  }

  lemma {:induction false} LastMemberStep(s: string, key: string, body: string, v: Value, x: string)
    requires s != "" && s[0] == '"' && ParseQuoted(s[1..]) == Some((key, ":" + body))
    requires Parse(body) == Some((v, "}" + x))
    ensures ParseMembers(s) == Some((map[key := v], x))
  {
    AfterFirst(':', body);
    AfterFirst('}', x);
  }

  lemma {:induction false} NextMemberStep(s: string, key: string, body: string, v: Value, tail: string,
                                          m: map<string, Value>, x: string)
    requires s != "" && s[0] == '"' && ParseQuoted(s[1..]) == Some((key, ":" + body))
    requires Parse(body) == Some((v, "," + tail)) && ParseMembers(tail) == Some((m, x))
    ensures ParseMembers(s) == Some((m[key := v], x))
  {
    AfterFirst(':', body);
    AfterFirst(',', tail);
  }

  /** In front of any delimiter, or at the end, the text reads as the value and what
      follows is left untouched. */
  ghost predicate ReadsAs(text: string, v: Value) {
    && !Ends(text)
    && forall rest {:trigger Parse(text + rest)} | Ends(rest) :: Parse(text + rest) == Some((v, rest))
  }

  lemma {:induction false} StringReadsBack(s: string)
    ensures ReadsAs(Quote(s), VStr(s))
  {
    forall x | Ends(x) ensures Parse(Quote(s) + x) == Some((VStr(s), x)) {
      var body := EscapeText(s) + "\"" + x;
      QuotedReadsBack(s, x);
      assert Quote(s) + x == ['"'] + body;
      AfterFirst('"', body);
      StringStep(Quote(s) + x, s, x);
    }
  }

  lemma {:induction false} TokenReadsAs(token: string)
    requires token != "" && token[0] !in "\"[{"
    requires forall i :: 0 <= i < |token| ==> !Delimiter(token[i])
    ensures ReadsAs(token, Scalar(token))
  {
    forall x | Ends(x) ensures Parse(token + x) == Some((Scalar(token), x)) {
      TokenTextReadsBack(token, x);
    }
    TokenTextReadsBack(token, "");
  }

  lemma {:induction false} OneItem(text: string, v: Value, x: string)
    requires ReadsAs(text, v)
    ensures ParseItems(text + "]" + x) == Some(([v], x))
  {
    assert Parse(text + ("]" + x)) == Some((v, "]" + x));
    assert text + "]" + x == text + ("]" + x);
    LastItemStep(text + "]" + x, v, x);
  }

  lemma {:induction false} Regroup(a: string, b: string, c: string, d: string, e: string)
    ensures a + b + c + d + e == a + (b + (c + d + e))
  {
  }

  lemma {:induction false} MoreItems(text: string, v: Value, others: string, vs: seq<Value>, x: string)
    requires ReadsAs(text, v) && ParseItems(others + "]" + x) == Some((vs, x))
    ensures ParseItems(text + "," + others + "]" + x) == Some(([v] + vs, x))
  {
    var tail := others + "]" + x;
    assert Parse(text + ("," + tail)) == Some((v, "," + tail));
    Regroup(text, ",", others, "]", x);
    NextItemStep(text + ("," + tail), v, tail, vs, x);
  }

  lemma {:induction false} ItemsReadBack(texts: seq<string>, values: seq<Value>, x: string)
    requires |texts| == |values| > 0
    requires forall i :: 0 <= i < |texts| ==> ReadsAs(texts[i], values[i])
    ensures Join(texts, ",") != "" && Join(texts, ",")[0] != ']'
    ensures ParseItems(Join(texts, ",") + "]" + x) == Some((values, x))
  {
    assert ReadsAs(texts[0], values[0]);
    if |texts| == 1 {
      OneItem(texts[0], values[0], x);
      assert values == [values[0]];
    } else {
      ItemsReadBack(texts[1..], values[1..], x);
      MoreItems(texts[0], values[0], Join(texts[1..], ","), values[1..], x);
      assert values == [values[0]] + values[1..];
    }
  }

  lemma {:induction false} OneMember(m: Member, v: Value, x: string)
    requires ReadsAs(m.text, v)
    ensures ParseMembers(MemberText(m) + "}" + x) == Some((map[m.key := v], x))
  {
    var rest := "}" + x;
    assert Parse(m.text + rest) == Some((v, rest));
    MemberSplit(m, rest);
    assert MemberText(m) + "}" + x == MemberText(m) + rest;
    LastMemberStep(MemberText(m) + rest, m.key, m.text + rest, v, x);
  }

  lemma {:induction false} MoreMembers(m: Member, v: Value, others: string, vs: map<string, Value>, x: string)
    requires ReadsAs(m.text, v) && ParseMembers(others + "}" + x) == Some((vs, x))
    ensures ParseMembers(MemberText(m) + "," + others + "}" + x) == Some((vs[m.key := v], x))
  {
    var tail := others + "}" + x;
    var rest := "," + tail;
    assert Parse(m.text + rest) == Some((v, rest));
    MemberSplit(m, rest);
    Regroup(MemberText(m), ",", others, "}", x);
    NextMemberStep(MemberText(m) + rest, m.key, m.text + rest, v, tail, vs, x);
  }

  lemma {:induction false} MembersReadBack(ms: seq<Member>, values: map<string, Value>, x: string)
    returns (parsed: map<string, Value>)
    requires ms != []
    requires forall m <- ms :: m.key in values && ReadsAs(m.text, values[m.key])
    ensures Join(MemberLines(ms), ",") != "" && Join(MemberLines(ms), ",")[0] == '"'
    ensures ParseMembers(Join(MemberLines(ms), ",") + "}" + x) == Some((parsed, x))
    ensures forall m <- ms :: m.key in parsed
    ensures forall k <- parsed :: k in values && parsed[k] == values[k]
  {
    var first := ms[0];
    assert first in ms;
    var v := values[first.key];
    if |ms| == 1 {
      OneMember(first, v, x);
      parsed := map[first.key := v];
    } else {
      var m := MembersReadBack(ms[1..], values, x);
      MoreMembers(first, v, Join(MemberLines(ms[1..]), ","), m, x);
      parsed := m[first.key := v];
    }
  }

  lemma {:induction false} MemberSplit(m: Member, rest: string)
    ensures MemberText(m) + rest != "" && (MemberText(m) + rest)[0] == '"'
    ensures ParseQuoted((MemberText(m) + rest)[1..]) == Some((m.key, ":" + (m.text + rest)))
  {
    var tail := ":" + (m.text + rest);
    QuotedReadsBack(m.key, tail);
    assert MemberText(m) + rest == ['"'] + (EscapeText(m.key) + "\"" + tail);
    AfterFirst('"', EscapeText(m.key) + "\"" + tail);
  }

  lemma {:induction false} ArrayReadsBack(texts: seq<string>, values: seq<Value>)
    requires |texts| == |values|
    requires forall i :: 0 <= i < |texts| ==> ReadsAs(texts[i], values[i])
    ensures ReadsAs("[" + Join(texts, ",") + "]", VArr(values))
  {
    forall x | Ends(x) ensures Parse("[" + Join(texts, ",") + "]" + x) == Some((VArr(values), x)) {
      ArrayReadsAt(texts, values, x);
    }
  }

  lemma {:induction false} Bracketed(open: char, middle: string, close: string, x: string)
    ensures ([open] + middle + close + x)[0] == open && ([open] + middle + close + x)[1..] == middle + close + x
  {
    assert [open] + middle + close + x == [open] + (middle + close + x);
  }

  lemma {:induction false} ArrayReadsAt(texts: seq<string>, values: seq<Value>, x: string)
    requires |texts| == |values|
    requires forall i :: 0 <= i < |texts| ==> ReadsAs(texts[i], values[i])
    ensures Parse("[" + Join(texts, ",") + "]" + x) == Some((VArr(values), x))
  {
    Bracketed('[', Join(texts, ","), "]", x);
    if texts == [] {
      AfterFirst(']', x);
      assert ("[" + "" + "]" + x)[2..] == x;
    } else {
      ItemsReadBack(texts, values, x);
      ArrayStep("[" + Join(texts, ",") + "]" + x, values, x);
    }
  }

  lemma {:induction false} ObjectReadsBack(ms: seq<Member>, values: map<string, Value>)
    requires forall m <- ms :: m.key in values && ReadsAs(m.text, values[m.key])
    requires forall k <- values :: exists m <- ms :: m.key == k
    ensures ReadsAs("{" + Join(MemberLines(ms), ",") + "}", VObj(values))
  {
    forall x | Ends(x) ensures Parse("{" + Join(MemberLines(ms), ",") + "}" + x) == Some((VObj(values), x)) {
      ObjectReadsAt(ms, values, x);
    }
  }

  lemma {:induction false} ObjectReadsAt(ms: seq<Member>, values: map<string, Value>, x: string)
    requires forall m <- ms :: m.key in values && ReadsAs(m.text, values[m.key])
    requires forall k <- values :: exists m <- ms :: m.key == k
    ensures Parse("{" + Join(MemberLines(ms), ",") + "}" + x) == Some((VObj(values), x))
  {
    Bracketed('{', Join(MemberLines(ms), ","), "}", x);
    if ms == [] {
      assert values == map[];
      assert ("{" + "" + "}" + x)[2..] == x;
    } else {
      var parsed := MembersReadBack(ms, values, x);
      assert parsed == values;
      ObjectStep("{" + Join(MemberLines(ms), ",") + "}" + x, values, x);
    }
  }

  /** No text starts or ends ambiguously: whatever follows, the reader recovers the
      meaning of every well-formed value. */
  lemma {:induction false} ReadsBack(j: Json, le: (string, string) -> bool)
    requires WellFormed(j)
    ensures ReadsAs(StableJson(j, le), Meaning(j))
  {
    match j
    case Str(s) => StringReadsBack(s);
    case Arr(items) => ArrReadsBack(items, le);
    case Obj(entries) => ObjReadsBack(entries, le);
    case _ => TokenReadsAs(StableJson(j, le));
  }

  lemma {:induction false} ArrReadsBack(items: seq<Json>, le: (string, string) -> bool)
    requires forall i :: 0 <= i < |items| ==> WellFormed(items[i])
    ensures ReadsAs(StableJson(Arr(items), le), VArr(Meanings(items)))
  {
    forall i | 0 <= i < |items| ensures ReadsAs(Texts(items, le)[i], Meanings(items)[i]) {
      ReadsBack(items[i], le);
    }
    ArrayReadsBack(Texts(items, le), Meanings(items));
  }

  lemma {:induction false} ObjReadsBack(entries: seq<Entry>, le: (string, string) -> bool)
    requires DistinctKeys(entries) && forall i :: 0 <= i < |entries| ==> WellFormed(entries[i].value)
    ensures ReadsAs(StableJson(Obj(entries), le), VObj(Members(entries)))
  {
    forall i | 0 <= i < |entries| ensures ReadsAs(MemberTexts(entries, le)[i].text, Meaning(entries[i].value)) {
      ReadsBack(entries[i].value, le);
    }
    EntriesReadBack(entries, le);
  }

  lemma {:induction false} EntriesReadBack(entries: seq<Entry>, le: (string, string) -> bool)
    requires DistinctKeys(entries)
    requires forall i :: 0 <= i < |entries| ==> ReadsAs(MemberTexts(entries, le)[i].text, Meaning(entries[i].value))
    ensures ReadsAs(StableJson(Obj(entries), le), VObj(Members(entries)))
  {
    var source := MemberTexts(entries, le);
    SortElements(source, MemberOrder(le));
    SourceReadsBack(entries, le);
    ObjectReadsBack(Sort(source, MemberOrder(le)), Members(entries));
  }

  lemma {:induction false} SourceReadsBack(entries: seq<Entry>, le: (string, string) -> bool)
    requires DistinctKeys(entries)
    requires forall i :: 0 <= i < |entries| ==> ReadsAs(MemberTexts(entries, le)[i].text, Meaning(entries[i].value))
    ensures forall m <- MemberTexts(entries, le) ::
      m.key in Members(entries) && ReadsAs(m.text, Members(entries)[m.key])
    ensures forall k <- Members(entries) :: exists m <- MemberTexts(entries, le) :: m.key == k
  {
    var source := MemberTexts(entries, le);
    ContentsOfMembers(entries);
    forall m | m in source ensures m.key in Members(entries) && ReadsAs(m.text, Members(entries)[m.key]) {
      var i :| 0 <= i < |source| && source[i] == m;
      assert m.key == entries[i].key;
    }
    forall k | k in Members(entries) ensures exists m <- source :: m.key == k {
      var i :| 0 <= i < |entries| && entries[i].key == k;
      assert source[i] in source;
    }
  }

  lemma {:induction false} ContentsOfMembers(entries: seq<Entry>)
    requires DistinctKeys(entries)
    ensures forall k :: k in Members(entries) <==> exists i :: 0 <= i < |entries| && entries[i].key == k
    ensures forall i :: 0 <= i < |entries| ==> entries[i].key in Members(entries)
                                                && Members(entries)[entries[i].key] == Meaning(entries[i].value)
  {
    if entries != [] {
      ContentsOfMembers(entries[1..]);
      forall i | 0 <= i < |entries|
        ensures entries[i].key in Members(entries) && Members(entries)[entries[i].key] == Meaning(entries[i].value)
      {
        if i > 0 {
          assert entries[i] == entries[1..][i - 1];
        }
      }
      forall k | k in Members(entries) ensures exists i :: 0 <= i < |entries| && entries[i].key == k {
        if k != entries[0].key {
          var i :| 0 <= i < |entries[1..]| && entries[1..][i].key == k;
          assert entries[i + 1].key == k;
        }
      }
    }
  }

  // ---------- The text depends on the meaning alone ----------

  lemma {:induction false} MemberOrderIsTotal(le: (string, string) -> bool)
    requires TotalOrder(le)
    ensures TotalOrder(MemberOrder(le))
  {
    var mo := MemberOrder(le);
    forall x: Member, y: Member
      ensures mo(x, y) || mo(y, x)
      ensures mo(x, y) && mo(y, x) ==> x == y
    {
      assert le(x.key, y.key) || le(y.key, x.key);
      assert le(x.text, y.text) || le(y.text, x.text);
    }
    forall x: Member, y: Member, z: Member | mo(x, y) && mo(y, z) ensures mo(x, z) {
      assert le(x.key, y.key) && le(y.key, z.key) ==> le(x.key, z.key);
      assert le(x.text, y.text) && le(y.text, z.text) ==> le(x.text, z.text);
    }
  }

  /** Two entries with one key and one meaning are written alike. */
  ghost predicate WrittenAlike(a: seq<Entry>, b: seq<Entry>, le: (string, string) -> bool) {
    forall i, k :: 0 <= i < |a| && 0 <= k < |b| && a[i].key == b[k].key ==>
      StableJson(a[i].value, le) == StableJson(b[k].value, le)
  }

  lemma {:induction false} EntriesIncluded(a: seq<Entry>, b: seq<Entry>, le: (string, string) -> bool)
    requires DistinctKeys(a) && DistinctKeys(b) && Members(a) == Members(b) && WrittenAlike(a, b, le)
    ensures forall m <- MemberTexts(a, le) :: m in MemberTexts(b, le)
  {
    ContentsOfMembers(a);
    ContentsOfMembers(b);
    forall m | m in MemberTexts(a, le) ensures m in MemberTexts(b, le) {
      var i :| 0 <= i < |a| && MemberTexts(a, le)[i] == m;
      assert a[i].key in Members(b);
      var k :| 0 <= k < |b| && b[k].key == a[i].key;
      assert MemberTexts(b, le)[k] == m;
    }
  }

  lemma {:induction false} SameMeaningSameText(a: Json, b: Json, le: (string, string) -> bool)
    requires TotalOrder(le) && WellFormed(a) && WellFormed(b) && Meaning(a) == Meaning(b)
    ensures StableJson(a, le) == StableJson(b, le)
  {
    match a
    case Arr(items) => SameItemsSameText(items, b.items, le);
    case Obj(entries) => SameMembersSameText(entries, b.entries, le);
    case _ =>
  }

  lemma {:induction false} SameItemsSameText(a: seq<Json>, b: seq<Json>, le: (string, string) -> bool)
    requires TotalOrder(le) && Meanings(a) == Meanings(b)
    requires (forall i :: 0 <= i < |a| ==> WellFormed(a[i])) && forall i :: 0 <= i < |b| ==> WellFormed(b[i])
    ensures Texts(a, le) == Texts(b, le)
  {
    assert |a| == |Meanings(a)| == |Meanings(b)| == |b|;
    forall i | 0 <= i < |a| ensures Texts(a, le)[i] == Texts(b, le)[i] {
      assert Meanings(a)[i] == Meanings(b)[i];
      SameMeaningSameText(a[i], b[i], le);
    }
  }

  lemma {:induction false} SameMembersSameText(a: seq<Entry>, b: seq<Entry>, le: (string, string) -> bool)
    requires TotalOrder(le) && DistinctKeys(a) && DistinctKeys(b) && Members(a) == Members(b)
    requires forall i :: 0 <= i < |a| ==> WellFormed(a[i].value)
    requires forall i :: 0 <= i < |b| ==> WellFormed(b[i].value)
    ensures StableJson(Obj(a), le) == StableJson(Obj(b), le)
    decreases a, 1
  {
    MembersWrittenAlike(a, b, le);
    EntriesIncluded(a, b, le);
    EntriesIncluded(b, a, le);
    SameElementsSameContents(MemberTexts(a, le), MemberTexts(b, le));
    MemberOrderIsTotal(le);
    SortCanonical(MemberTexts(a, le), MemberTexts(b, le), MemberOrder(le));
  }

  lemma {:induction false} MembersWrittenAlike(a: seq<Entry>, b: seq<Entry>, le: (string, string) -> bool)
    requires TotalOrder(le) && DistinctKeys(a) && DistinctKeys(b) && Members(a) == Members(b)
    requires forall i :: 0 <= i < |a| ==> WellFormed(a[i].value)
    requires forall i :: 0 <= i < |b| ==> WellFormed(b[i].value)
    ensures WrittenAlike(a, b, le) && WrittenAlike(b, a, le)
    decreases a, 0
  {
    ContentsOfMembers(a);
    ContentsOfMembers(b);
    forall i, k | 0 <= i < |a| && 0 <= k < |b| && a[i].key == b[k].key
      ensures StableJson(a[i].value, le) == StableJson(b[k].value, le)
    {
      assert Members(a)[a[i].key] == Members(b)[b[k].key];
      SameMeaningSameText(a[i].value, b[k].value, le);
    }
  }

  /** Main result: two texts are equal exactly when the values are equal up to the order
      of object keys, at every depth and under any total order on keys. */
  lemma {:induction false} StableJsonIsFaithful(a: Json, b: Json, le: (string, string) -> bool)
    requires TotalOrder(le) && WellFormed(a) && WellFormed(b)
    ensures StableJson(a, le) == StableJson(b, le) <==> Meaning(a) == Meaning(b)
  {
    ReadsBack(a, le);
    ReadsBack(b, le);
    if Meaning(a) == Meaning(b) {
      SameMeaningSameText(a, b, le);
    } else {
      assert Parse(StableJson(a, le) + "") == Some((Meaning(a), ""));
      assert Parse(StableJson(b, le) + "") == Some((Meaning(b), ""));
    }
  }
}
