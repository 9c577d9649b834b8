/** Values of the host-side release transaction: files, Compose models, images, and the
    pure parts of its checks. */
module ReleaseModel {
  import opened Common

  /** The canonical path: missing, a symbolic link to readable bytes, or a regular file. */
  datatype File = Absent | Link(target: string) | Regular(bytes: string)

  /** What opening the path reads; links are followed. */
  function Content(f: File): Option<string> {
    match f
    case Absent => None
    case Link(bytes) => Some(bytes)
    case Regular(bytes) => Some(bytes)
  }

  // ---------- Compose models ----------

  type Service = map<string, string>

  /** A rendered Compose configuration: its services and everything else. */
  datatype ComposeModel = ComposeModel(services: map<string, Service>, rest: string)

  function ServerImage(m: ComposeModel): Option<string> {
    if "server" in m.services && "image" in m.services["server"] then Some(m.services["server"]["image"]) else None
  }

  function WithServerImage(m: ComposeModel, image: string): ComposeModel
    requires "server" in m.services
  {
    m.(services := m.services["server" := m.services["server"]["image" := image]])
  }

  function WithoutServerImage(m: ComposeModel): ComposeModel
    requires "server" in m.services
  {
    m.(services := m.services["server" := m.services["server"] - {"image"}])
  }

  /** `same_except_server_image`; raises when either model has no server image to compare. */
  function SameExceptServerImage(before: ComposeModel, after: ComposeModel, candidate: string): Result<bool> {
    if ServerImage(after).None? then Raise
    else if ServerImage(after).value != candidate then Ok(false)
    else if ServerImage(before).None? then Raise
    else Ok(WithoutServerImage(before) == WithoutServerImage(after))
  }

  /** The check passes exactly when the one difference is the candidate as server image. */
  lemma {:induction false} SameExceptServerImageMeans(before: ComposeModel, after: ComposeModel, candidate: string)
    ensures SameExceptServerImage(before, after, candidate) == Ok(true)
        <==> ServerImage(before).Some? && after == WithServerImage(before, candidate)
  {
    if SameExceptServerImage(before, after, candidate) == Ok(true) {
      var b, a := before.services, after.services;
      assert b["server" := b["server"] - {"image"}] == a["server" := a["server"] - {"image"}];
      forall k ensures k in a <==> k in b {
        assert k in b["server" := b["server"] - {"image"}] <==> k in a["server" := a["server"] - {"image"}];
      }
      forall k | k in a && k != "server" ensures a[k] == b[k] {
        assert b["server" := b["server"] - {"image"}][k] == a["server" := a["server"] - {"image"}][k];
      }
      assert b["server"] - {"image"} == b["server" := b["server"] - {"image"}]["server"]
          == a["server" := a["server"] - {"image"}]["server"] == a["server"] - {"image"};
      assert a["server"] == b["server"]["image" := candidate] by {
        forall f | f in a["server"] && f != "image" ensures f in b["server"] && a["server"][f] == b["server"][f] {
          assert f in a["server"] - {"image"};
        }
        forall f | f in b["server"] && f != "image" ensures f in a["server"] {
          assert f in b["server"] - {"image"};
        }
      }
      assert a == WithServerImage(before, candidate).services;
    }
    if ServerImage(before).Some? && after == WithServerImage(before, candidate) {
      assert after.services["server"] - {"image"} == before.services["server"] - {"image"};
      assert WithoutServerImage(before).services == WithoutServerImage(after).services;
    }
  }

  // ---------- Editing the canonical text ----------

  /** `bytes.count`: occurrences found left to right without overlap. */
  function Count(text: string, needle: string): nat
    requires needle != ""
  {
    if |text| < |needle| then 0
    else if text[..|needle|] == needle then 1 + Count(text[|needle|..], needle)
    else Count(text[1..], needle)
  }

  /** `bytes.replace`: the same occurrences, each rewritten. */
  function Replace(text: string, needle: string, with: string): string
    requires needle != ""
  {
    if |text| < |needle| then text
    else if text[..|needle|] == needle then with + Replace(text[|needle|..], needle, with)
    else [text[0]] + Replace(text[1..], needle, with)
  }

  predicate OccursAt(text: string, needle: string, i: nat) {
    i + |needle| <= |text| && text[i..i + |needle|] == needle
  }

  lemma {:induction false} OccursLater(text: string, needle: string, n: nat, i: nat)
    requires n <= |text|
    ensures OccursAt(text[n..], needle, i) <==> OccursAt(text, needle, n + i)
  {
    if n + i + |needle| <= |text| {
      assert text[n..][i..i + |needle|] == text[n + i..n + i + |needle|];
    }
  }

  /** Nothing is counted exactly when there is no occurrence. */
  lemma {:induction false} CountZero(text: string, needle: string)
    requires needle != ""
    ensures Count(text, needle) == 0 <==> forall i: nat :: !OccursAt(text, needle, i)
  {
    if |text| >= |needle| {
      if text[..|needle|] == needle {
        assert OccursAt(text, needle, 0);
      } else {
        CountZero(text[1..], needle);
        forall i: nat ensures OccursAt(text, needle, i) <==> i > 0 && OccursAt(text[1..], needle, i - 1) {
          if i > 0 {
            OccursLater(text, needle, 1, i - 1);
          }
        }
        if i: nat :| OccursAt(text[1..], needle, i) {
          assert OccursAt(text, needle, i + 1);
        }
      }
    }
  }

  /** This is the first occurrence, and every other one overlaps it. */
  ghost predicate OnlyOccurrence(text: string, needle: string, i: nat) {
    OccursAt(text, needle, i) && forall j: nat :: OccursAt(text, needle, j) ==> i <= j < i + |needle|
  }

  /** One occurrence is counted exactly when every occurrence overlaps the first. */
  lemma {:induction false} CountOne(text: string, needle: string)
    requires needle != ""
    ensures Count(text, needle) == 1 <==> exists i: nat :: OnlyOccurrence(text, needle, i)
  {
    if |text| >= |needle| {
      if text[..|needle|] == needle {
        var n := |needle|;
        assert OccursAt(text, needle, 0);
        CountZero(text[n..], needle);
        forall j: nat ensures OccursAt(text[n..], needle, j) <==> OccursAt(text, needle, n + j) {
          OccursLater(text, needle, n, j);
        }
        if Count(text[n..], needle) == 0 {
          forall j: nat | n <= j ensures !OccursAt(text, needle, j) {
            assert !OccursAt(text[n..], needle, j - n);
          }
          assert OnlyOccurrence(text, needle, 0);
        }
        if i: nat :| OnlyOccurrence(text, needle, i) {
          forall j: nat ensures !OccursAt(text[n..], needle, j) {
            assert OccursAt(text, needle, n + j) ==> n + j < i + n;
          }
        }
      } else {
        CountOne(text[1..], needle);
        assert !OccursAt(text, needle, 0);
        forall j: nat ensures OccursAt(text[1..], needle, j) <==> OccursAt(text, needle, 1 + j) {
          OccursLater(text, needle, 1, j);
        }
        if i: nat :| OnlyOccurrence(text[1..], needle, i) {
          forall j: nat | OccursAt(text, needle, j) ensures i + 1 <= j < i + 1 + |needle| {
            assert OccursAt(text[1..], needle, j - 1);
          }
          assert OnlyOccurrence(text, needle, i + 1);
        }
        if i: nat :| OnlyOccurrence(text, needle, i) {
          forall j: nat | OccursAt(text[1..], needle, j) ensures i - 1 <= j < i - 1 + |needle| {
            assert OccursAt(text, needle, 1 + j);
          }
          assert OnlyOccurrence(text[1..], needle, i - 1);
        }
      }
    }
  }

  lemma {:induction false} NoOccurrence(text: string, needle: string, with: string)
    requires needle != "" && Count(text, needle) == 0
    ensures Replace(text, needle, with) == text
  {
    if |text| >= |needle| {
      NoOccurrence(text[1..], needle, with);
    }
  }

  /** A single occurrence is rewritten in place and nothing around it moves. */
  lemma {:induction false} SingleOccurrence(text: string, needle: string, with: string)
    returns (before: string, after: string)
    requires needle != "" && Count(text, needle) == 1
    ensures text == before + needle + after && Replace(text, needle, with) == before + with + after
  {
    if text[..|needle|] == needle {
      before, after := "", text[|needle|..];
      NoOccurrence(after, needle, with);
      assert text == needle + after;
    } else {
      var b, a := SingleOccurrence(text[1..], needle, with);
      before, after := [text[0]] + b, a;
      FrontAdded(text[0], b, needle, a);
      FrontAdded(text[0], b, with, a);
      assert text == [text[0]] + text[1..];
    }
  }

  lemma {:induction false} FrontAdded(c: char, before: string, middle: string, after: string)
    ensures [c] + (before + middle + after) == ([c] + before) + middle + after
  {
  }

  /** Replacing it by something else changes the text. */
  lemma {:induction false} ReplacementShows(text: string, needle: string, with: string)
    requires needle != "" && Count(text, needle) == 1 && with != needle
    ensures Replace(text, needle, with) != text
  {
    var before, after := SingleOccurrence(text, needle, with);
    MiddleDecides(before, with, needle, after);
  }

  lemma {:induction false} MiddleDecides(before: string, a: string, b: string, after: string)
    ensures before + a + after == before + b + after ==> a == b
  {
    if before + a + after == before + b + after {
      assert |a| == |b|;
      assert a == (before + a + after)[|before|..|before| + |a|];
      assert b == (before + b + after)[|before|..|before| + |b|];
    }
  }

  // ---------- Names ----------

  predicate AlphaNumeric(c: char) {
    'a' <= c <= 'z' || 'A' <= c <= 'Z' || '0' <= c <= '9'
  }

  predicate ImageName(s: string) {
    s != "" && AlphaNumeric(s[0]) && forall i :: 1 <= i < |s| ==> AlphaNumeric(s[i]) || s[i] in "._/:@-"
  }

  predicate Hex(c: char) {
    '0' <= c <= '9' || 'a' <= c <= 'f'
  }

  predicate Sha256(s: string) {
    |s| == 64 && forall i :: 0 <= i < 64 ==> Hex(s[i])
  }

  predicate ImageId(s: string) {
    |s| == 71 && s[..7] == "sha256:" && Sha256(s[7..])
  }

  /** A positive decimal without leading zeros. */
  predicate Ordinal(s: string) {
    s != "" && '1' <= s[0] <= '9' && forall i :: 0 <= i < |s| ==> IsDigit(s[i])
  }

  const TAG_PREFIX := "matrix-calendar-widget/server:archive-"

  /** The tag pattern of archive images: the prefix and two ordinals joined by a dash. */
  predicate CandidateTag(s: string) {
    && TAG_PREFIX <= s
    && var rest := s[|TAG_PREFIX|..];
       exists k :: 0 <= k < |rest| && rest[k] == '-' && Ordinal(rest[..k]) && Ordinal(rest[k + 1..])
  }

  lemma {:induction false} DigitsAreOrdinal(n: nat)
    requires n > 0
    ensures Ordinal(Digits(n))
  {
    if n >= 10 {
      DigitsAreOrdinal(n / 10);
      assert Digits(n)[0] == Digits(n / 10)[0];
    }
  }

  /** Every archive number makes a candidate tag. */
  lemma {:induction false} ArchiveTag(run: nat, attempt: nat)
    requires run > 0 && attempt > 0
    ensures CandidateTag("matrix-calendar-widget/server:archive-" + (Digits(run) + ("-" + Digits(attempt))))
  {
    var rest := Digits(run) + ("-" + Digits(attempt));
    var s := TAG_PREFIX + rest;
    var k := |Digits(run)|;
    DigitsAreOrdinal(run);
    DigitsAreOrdinal(attempt);
    assert s[|TAG_PREFIX|..] == rest;
    assert rest[k] == '-' && rest[..k] == Digits(run) && rest[k + 1..] == Digits(attempt);
  }

  /** The request. `locationsValid` sums up the absolute paths and the project name. */
  datatype Config = Config(candidateTag: string, candidateId: string, archiveSha256: string,
                           locationsValid: bool, rollbackCompatible: bool)

  predicate Validated(c: Config) {
    && c.locationsValid && Sha256(c.archiveSha256) && ImageId(c.candidateId)
    && CandidateTag(c.candidateTag) && c.rollbackCompatible
  }

  function OverlayText(image: string): string {
    "services:\n  server:\n    image: " + image + "\n"
  }

  // ---------- Saved image archives ----------

  /** One manifest entry, by the tags it names. */
  datatype ManifestEntry = ManifestEntry(tags: seq<string>)

  /** The members of an image archive that name tags. `None` is content that is not the
      expected JSON shape. `regular` and `size` are those of the archive member. */
  datatype Manifest = Manifest(regular: bool, size: nat, entries: Option<seq<ManifestEntry>>)

  type TagTable = map<string, Option<map<string, string>>>

  datatype Repositories = Repositories(regular: bool, size: nat, entries: Option<TagTable>)

  datatype Archive = Archive(manifests: seq<Manifest>, repositories: seq<Repositories>)

  const MEMBER_LIMIT := 65536

  function LastColon(s: string): (k: int)
    ensures -1 <= k < |s| && (k >= 0 ==> s[k] == ':')
  {
    if s == "" then -1 else if s[|s| - 1] == ':' then |s| - 1 else LastColon(s[..|s| - 1])
  }

  /** `check_saved_image_tags`. */
  predicate CheckSavedImageTags(a: Archive, expected: string) {
    && |a.manifests| == 1
    && a.manifests[0].regular && a.manifests[0].size <= MEMBER_LIMIT
    && a.manifests[0].entries.Some?
    && |a.manifests[0].entries.value| == 1
    && a.manifests[0].entries.value[0].tags == [expected]
    && |a.repositories| <= 1
    && (|a.repositories| == 1 ==>
          && a.repositories[0].regular && a.repositories[0].size <= MEMBER_LIMIT
          && a.repositories[0].entries.Some?
          && var colon := LastColon(expected);
             colon >= 0
             && var repository, tag := expected[..colon], expected[colon + 1..];
                var entries := a.repositories[0].entries.value;
                entries.Keys == {repository} && entries[repository].Some? && entries[repository].value.Keys == {tag})
  }

  /** Loading may move any tag that any manifest entry or repository table names. */
  predicate Names(a: Archive, name: string) {
    || (exists m <- a.manifests :: m.entries.Some? && exists e <- m.entries.value :: name in e.tags)
    || (exists r <- a.repositories :: r.entries.Some? && NamesInTable(r.entries.value, name))
  }

  predicate TaggedIn(table: TagTable, repository: string, name: string)
    requires repository in table
  {
    table[repository].Some? && exists tag <- table[repository].value :: name == repository + ":" + tag
  }

  predicate NamesInTable(table: TagTable, name: string) {
    exists repository <- table :: TaggedIn(table, repository, name)
  }

  /** An archive that passes names the candidate and no other tag, in either table. */
  lemma {:induction false} CheckedArchiveNamesOnly(a: Archive, expected: string, name: string)
    requires CheckSavedImageTags(a, expected)
    ensures Names(a, name) <==> name == expected
  {
    assert a.manifests[0] in a.manifests && a.manifests[0].entries.value[0] in a.manifests[0].entries.value;
    if |a.repositories| == 1 {
      var colon := LastColon(expected);
      assert expected == expected[..colon] + ":" + expected[colon + 1..];
      if exists r <- a.repositories :: r.entries.Some? && NamesInTable(r.entries.value, name) {
        var table := a.repositories[0].entries.value;
        var repository :| repository in table && TaggedIn(table, repository, name);
        assert repository in table.Keys;
        var tag :| tag in table[repository].value && name == repository + ":" + tag;
        assert tag in table[repository].value.Keys;
      }
    }
  }

  lemma {:induction false} LastColonAt(repository: string, tag: string)
    requires ':' !in tag
    ensures LastColon(repository + (":" + tag)) == |repository|
  {
    var s := repository + (":" + tag);
    if tag == "" {
      assert s[|s| - 1] == ':';
    } else {
      var n := |tag| - 1;
      assert s[|s| - 1] == tag[n] && tag[n] in tag;
      assert s[..|s| - 1] == repository + (":" + tag[..n]);
      LastColonAt(repository, tag[..n]);
    }
  }

  /** An archive that names the one tag in its manifest, and in its table if it has one, passes. */
  lemma {:induction false} WrittenArchivePasses(repository: string, tag: string, id: string, size: nat, table: bool)
    requires ':' !in tag && size <= 65536
    ensures var name := repository + (":" + tag);
      var manifest := Manifest(true, size, Some([ManifestEntry([name])]));
      var names := Repositories(true, size, Some(map[repository := Some(map[tag := id])]));
      CheckSavedImageTags(Archive([manifest], if table then [names] else []), name)
  {
    var name := repository + (":" + tag);
    LastColonAt(repository, tag);
    assert name[..|repository|] == repository && name[|repository| + 1..] == tag;
  }

  /** The tags after loading: a named tag is wherever loading put it, or gone, and a tag that
      the archive does not name stays. */
  function Moved(tags: map<string, string>, a: Archive, loaded: map<string, string>): map<string, string> {
    map t | t in tags.Keys + loaded.Keys && (if Names(a, t) then t in loaded else t in tags)
      :: if Names(a, t) then loaded[t] else tags[t]
  }

  /** Every tag but one is where it was. */
  ghost predicate OnlyTag(before: map<string, string>, after: map<string, string>, tag: string) {
    forall t :: t != tag ==> (t in before <==> t in after) && (t in before ==> before[t] == after[t])
  }

  /** Whatever loading a checked archive does, it cannot touch the rollback tag. */
  lemma {:induction false} LoadKeepsOtherTags(tags: map<string, string>, a: Archive, loaded: map<string, string>,
                                              expected: string)
    requires CheckSavedImageTags(a, expected)
    ensures OnlyTag(tags, Moved(tags, a, loaded), expected)
  {
    forall t | t != expected ensures !Names(a, t) {
      CheckedArchiveNamesOnly(a, expected, t);
    }
  }

  /** Loading can move no tag but one, whatever is tagged before and wherever it puts things,
      exactly when the archive names no other: naming the candidate alone is not too strict. */
  lemma {:induction false} OnlyNamedTagsMove(a: Archive, expected: string)
    ensures (forall tags, loaded :: OnlyTag(tags, Moved(tags, a, loaded), expected))
      <==> (forall t :: Names(a, t) ==> t == expected)
  {
    if t :| Names(a, t) && t != expected {
      var tags: map<string, string> := map[t := "before"];
      var loaded: map<string, string> := map[t := "after"];
      var after := Moved(tags, a, loaded);
      assert t in tags && t in after && after[t] == "after";
      assert !OnlyTag(tags, after, expected);
    }
  }
}
