/** The text side of views/news/pubmed_vector_store.py: the heading keyword
    table, `_identify_section`, `_clean_text`, and `_parse_pmc_xml` over an
    already parsed ElementTree document. */
module PubmedSections {
  import opened Wrappers
  import opened Text

  /** The keys of the `sections` dict of `_parse_pmc_xml`. */
  datatype Section = Abstract | Introduction | Methods | Results | Discussion | Conclusions

  /** The dict key of a section, as it also appears in point ids. */
  function Name(s: Section): (r: string)
    ensures r != [] && '_' !in r
  {
    match s
    case Abstract => "abstract"
    case Introduction => "introduction"
    case Methods => "methods"
    case Results => "results"
    case Discussion => "discussion"
    case Conclusions => "conclusions"
  }

  /** Different sections have different keys. */
  lemma NameInjective(a: Section, b: Section)
    ensures Name(a) == Name(b) ==> a == b
  {
    if a != b {
      assert Name(a)[0] != Name(b)[0];
    }
  }

  /** The keys in the dict's insertion order. */
  const Sections: seq<Section> := [Abstract, Introduction, Methods, Results, Discussion, Conclusions]

  /** `SECTION_KEYWORDS`, in its insertion order. */
  const SectionKeywords: seq<(Section, seq<string>)> := [
    (Introduction, ["introduction", "background"]),
    (Methods, ["methods", "materials and methods", "methodology", "experimental"]),
    (Results, ["results", "findings"]),
    (Discussion, ["discussion"]),
    (Conclusions, ["conclusion", "conclusions", "summary"])]

  /** The first entry of `table` with a keyword occurring in `t`. */
  function IdentifyIn(table: seq<(Section, seq<string>)>, t: string): Option<Section>
    decreases |table|
  {
    if table == [] then None
    else if AnyIn(table[0].1, t) then Some(table[0].0)
    else IdentifyIn(table[1..], t)
  }

  /** None exactly when no entry matches; otherwise the section of the first
      entry that matches. */
  lemma {:induction false} IdentifyInIff(table: seq<(Section, seq<string>)>, t: string)
    ensures IdentifyIn(table, t).None? <==> forall i :: 0 <= i < |table| ==> !AnyIn(table[i].1, t)
    ensures IdentifyIn(table, t).Some? ==>
              exists i :: 0 <= i < |table| && table[i].0 == IdentifyIn(table, t).value && AnyIn(table[i].1, t) &&
                          forall j :: 0 <= j < i ==> !AnyIn(table[j].1, t)
    decreases |table|
  {
    if table != [] {
      if AnyIn(table[0].1, t) {
        assert table[0].0 == IdentifyIn(table, t).value;
      } else {
        IdentifyInIff(table[1..], t);
        assert forall i :: 1 <= i < |table| ==> table[i] == table[1..][i - 1];
        if IdentifyIn(table, t).Some? {
          var i :| 0 <= i < |table[1..]| && table[1..][i].0 == IdentifyIn(table, t).value &&
                   AnyIn(table[1..][i].1, t) && forall j :: 0 <= j < i ==> !AnyIn(table[1..][j].1, t);
          assert table[i + 1].0 == IdentifyIn(table, t).value;
          assert forall j :: 0 <= j < i + 1 ==> !AnyIn(table[j].1, t) by {
            forall j | 0 <= j < i + 1
              ensures !AnyIn(table[j].1, t)
            {
              if j > 0 {
                assert table[j] == table[1..][j - 1];
              }
            }
          }
        }
      }
    }
  }

  /** `_identify_section`: the first section of the table, in table order, one
      of whose keywords is a substring of the lowercased title. */
  function IdentifySection(title: string): Option<Section> {
    IdentifyIn(SectionKeywords, Lower(title))
  }

  /** The entry found is the first one that matches. */
  lemma FirstMatch(table: seq<(Section, seq<string>)>, t: string, i: nat)
    requires i < |table| && AnyIn(table[i].1, t)
    requires forall j :: 0 <= j < i ==> !AnyIn(table[j].1, t)
    ensures IdentifyIn(table, t) == Some(table[i].0)
  {
    IdentifyInIff(table, t);
    var r := IdentifyIn(table, t);
    var k :| 0 <= k < |table| && table[k].0 == r.value && AnyIn(table[k].1, t) &&
             forall j :: 0 <= j < k ==> !AnyIn(table[j].1, t);
    assert k == i;
  }

  /** "Summary" is a conclusions keyword. */
  lemma SummaryIsConclusions()
    ensures IdentifySection("Summary") == Some(Conclusions)
  {
    var sk := SectionKeywords;
    assert Lower("Summary") == "summary" by {
      assert LowerChar('S') == 's';
    }
    assert !AnyIn(sk[1].1, "summary") by {
      assert "summary"[..7][0] != "methods"[0];
    }
    assert !AnyIn(sk[2].1, "summary") by {
      assert "summary"[..7][0] != "results"[0];
    }
    assert AnyIn(sk[4].1, "summary") by {
      assert Contains("summary", "summary");
    }
    FirstMatch(sk, "summary", 4);
  }

  /** "Results" is a results keyword that no earlier entry matches. */
  lemma ResultsIsResults()
    ensures IdentifySection("Results") == Some(Results)
  {
    var sk := SectionKeywords;
    assert Lower("Results") == "results" by {
      assert LowerChar('R') == 'r';
    }
    assert !AnyIn(sk[1].1, "results") by {
      assert "results"[..7][0] != "methods"[0];
    }
    assert AnyIn(sk[2].1, "results") by {
      assert Contains("results", "results");
    }
    FirstMatch(sk, "results", 2);
  }

  /** No heading is ever taken for the abstract. */
  lemma NeverAbstract(title: string)
    ensures IdentifySection(title) != Some(Abstract)
  {
    var t := Lower(title);
    IdentifyInIff(SectionKeywords, t);
    if IdentifyIn(SectionKeywords, t).Some? {
      var i :| 0 <= i < |SectionKeywords| && SectionKeywords[i].0 == IdentifyIn(SectionKeywords, t).value &&
               AnyIn(SectionKeywords[i].1, t) && forall j :: 0 <= j < i ==> !AnyIn(SectionKeywords[j].1, t);
      assert SectionKeywords[i].0 != Abstract;
    }
  }

  // ----- `_clean_text` -----

  /** The whitespace at the front of `s`. */
  function SkipSpaces(s: string): (r: string)
    ensures |r| <= |s| && r == s[|s| - |r|..]
    ensures r == [] || !IsSpace(r[0])
  {
    if s != [] && IsSpace(s[0]) then SkipSpaces(s[1..]) else s
  }

  /** `re.sub(r'\s+', ' ', s)`: every maximal run of whitespace becomes one space. */
  function Collapse(s: string): (r: string)
    ensures s == [] <==> r == []
    ensures s != [] && !IsSpace(s[0]) ==> r[0] == s[0]
    decreases |s|
  {
    if s == [] then []
    else if IsSpace(s[0]) then [' '] + Collapse(SkipSpaces(s[1..]))
    else [s[0]] + Collapse(s[1..])
  }

  /** No whitespace but single spaces between other characters. */
  ghost predicate Collapsed(s: string) {
    && (forall i :: 0 <= i < |s| && IsSpace(s[i]) ==> s[i] == ' ')
    && (forall i, j :: 0 <= i < j < |s| && j == i + 1 ==> !(IsSpace(s[i]) && IsSpace(s[j])))
  }

  /** What `_clean_text` promises: collapsed, and no whitespace at either end. */
  ghost predicate Clean(s: string) {
    Collapsed(s) && (s == [] || (!IsSpace(s[0]) && !IsSpace(s[|s| - 1])))
  }

  /** Putting a character in front of a collapsed string keeps it collapsed
      unless the character is whitespace other than a space before a space. */
  lemma ConsCollapsed(c: char, r: string)
    requires Collapsed(r)
    requires IsSpace(c) ==> c == ' ' && (r != [] ==> !IsSpace(r[0]))
    ensures Collapsed([c] + r)
  {
    var t := [c] + r;
    forall i | 0 < i < |t| && IsSpace(t[i])
      ensures t[i] == ' ' && (i + 1 < |t| ==> !IsSpace(t[i + 1]))
    {
      assert t[i] == r[i - 1];
      if i + 1 < |t| {
        assert t[i + 1] == r[i];
      }
    }
  }

  lemma {:induction false} CollapseCollapsed(s: string)
    ensures Collapsed(Collapse(s))
    decreases |s|
  {
    if s != [] {
      if IsSpace(s[0]) {
        var t := SkipSpaces(s[1..]);
        CollapseCollapsed(t);
        ConsCollapsed(' ', Collapse(t));
      } else {
        CollapseCollapsed(s[1..]);
        ConsCollapsed(s[0], Collapse(s[1..]));
      }
    }
  }

  /** Collapsing leaves an already collapsed string alone. */
  lemma {:induction false} CollapseNoop(s: string)
    requires Collapsed(s)
    ensures Collapse(s) == s
    decreases |s|
  {
    if s != [] {
      var t := s[1..];
      assert s == [s[0]] + t;
      CollapsedTail(s);
      CollapseNoop(t);
      if IsSpace(s[0]) {
        assert s[0] == ' ';
        if t != [] {
          assert t[0] == s[1] && !IsSpace(t[0]);
        }
        assert SkipSpaces(t) == t;
        assert Collapse(s) == [' '] + Collapse(t);
      } else {
        assert Collapse(s) == [s[0]] + Collapse(t);
      }
    }
  }

  lemma CollapsedTail(s: string)
    requires s != [] && Collapsed(s)
    ensures Collapsed(s[1..])
  {
    forall i | 0 <= i < |s[1..]| && IsSpace(s[1..][i])
      ensures s[1..][i] == ' ' && (i + 1 < |s[1..]| ==> !IsSpace(s[1..][i + 1]))
    {
      assert s[1..][i] == s[i + 1];
    }
  }

  /** A piece of a collapsed string is collapsed. */
  lemma PieceCollapsed(s: string, a: nat, b: nat)
    requires a <= b <= |s| && Collapsed(s)
    ensures Collapsed(s[a..b])
  {
    var t := s[a..b];
    forall i | 0 <= i < |t| && IsSpace(t[i])
      ensures t[i] == ' ' && (i + 1 < |t| ==> !IsSpace(t[i + 1]))
    {
      assert t[i] == s[a + i];
      if i + 1 < |t| {
        assert t[i + 1] == s[a + i + 1];
      }
    }
  }

  /** Stripping a collapsed string leaves it clean. */
  lemma StripCollapsed(c: string)
    requires Collapsed(c)
    ensures Clean(Strip(c))
  {
    var r := Strip(c);
    var a := LeadingSpaces(c);
    assert r == c[a..a + |r|];
    PieceCollapsed(c, a, a + |r|);
  }

  /** `_clean_text`. */
  function CleanText(s: string): string {
    Strip(Collapse(s))
  }

  /** What `_clean_text` returns is clean. */
  lemma CleanTextClean(s: string)
    ensures Clean(CleanText(s))
  {
    CollapseCollapsed(s);
    StripCollapsed(Collapse(s));
  }

  /** A clean string is its own clean text. */
  lemma CleanTextOfClean(s: string)
    requires Clean(s)
    ensures CleanText(s) == s
  {
    CollapseNoop(s);
    StripNoop(s);
  }

  /** Cleaning twice is cleaning once. */
  lemma CleanTextIdempotent(s: string)
    ensures CleanText(CleanText(s)) == CleanText(s)
  {
    CleanTextClean(s);
    CleanTextOfClean(CleanText(s));
  }

  // ----- the parsed document -----

  /** An ElementTree element: its tag, its `text`, its children and its `tail`. */
  datatype Xml = Xml(tag: string, text: string, children: seq<Xml>, tail: string)

  /** `"".join(e.itertext())`: the element's text, then each child's text and tail. */
  function IterText(e: Xml): string
    decreases e, 1
  {
    e.text + ChildrenText(e.children, 0)
  }

  /** The text and tail of the children `cs[i..]`. */
  function ChildrenText(cs: seq<Xml>, i: nat): string
    requires i <= |cs|
    decreases cs, |cs| - i
  {
    if i == |cs| then "" else IterText(cs[i]) + cs[i].tail + ChildrenText(cs, i + 1)
  }

  /** `_extract_text`. */
  function ExtractText(e: Xml): string {
    Strip(IterText(e))
  }

  /** The proper descendants of an element, in document order (what `.//` visits). */
  function Descendants(e: Xml): seq<Xml>
    decreases e, 1
  {
    ChildrenNodes(e.children, 0)
  }

  function ChildrenNodes(cs: seq<Xml>, i: nat): seq<Xml>
    requires i <= |cs|
    decreases cs, |cs| - i
  {
    if i == |cs| then [] else [cs[i]] + Descendants(cs[i]) + ChildrenNodes(cs, i + 1)
  }

  /** The first element of `es[i..]` with tag `tag`. */
  function FindFrom(es: seq<Xml>, tag: string, i: nat): (r: Option<Xml>)
    requires i <= |es|
    ensures r.Some? ==> r.value in es && r.value.tag == tag
    ensures r.None? <==> forall j :: i <= j < |es| ==> es[j].tag != tag
    decreases |es| - i
  {
    if i == |es| then None
    else if es[i].tag == tag then Some(es[i])
    else FindFrom(es, tag, i + 1)
  }

  /** The first element of `es` with tag `tag`: `find`. */
  function FindFirst(es: seq<Xml>, tag: string): (r: Option<Xml>)
    ensures r.Some? ==> r.value in es && r.value.tag == tag
    ensures r.None? <==> forall i :: 0 <= i < |es| ==> es[i].tag != tag
  {
    FindFrom(es, tag, 0)
  }

  /** The elements of `es` with tag `tag`, in order: `findall`. */
  function FindAll(es: seq<Xml>, tag: string): (r: seq<Xml>)
    ensures forall x :: x in r <==> x in es && x.tag == tag
  {
    if es == [] then []
    else (if es[0].tag == tag then [es[0]] else []) + FindAll(es[1..], tag)
  }

  /** A body `sec` whose `title` child names a known section adds `" " + text`
      to that section, where `text` is the section's text with the title's text
      removed once and stripped. */
  function Piece(sec: Xml): Option<(Section, string)> {
    match FindFirst(sec.children, "title")
    case None => None
    case Some(te) =>
      match IdentifySection(Lower(ExtractText(te)))
      case None => None
      case Some(key) => Some((key, Strip(ReplaceFirst(ExtractText(sec), ExtractText(te), ""))))
  }

  /** What the first `n` pieces add to section `key`, before cleaning. */
  function AccumulatedTo(pieces: seq<Option<(Section, string)>>, n: nat, key: Section): string
    requires n <= |pieces|
  {
    if n == 0 then ""
    else
      var rest := AccumulatedTo(pieces, n - 1, key);
      match pieces[n - 1]
      case Some((k, text)) => if k == key then rest + " " + text else rest
      case None => rest
  }

  /** The piece of every `sec` element, in order. */
  function Pieces(secs: seq<Xml>): (r: seq<Option<(Section, string)>>)
    ensures |r| == |secs|
  {
    if secs == [] then [] else Pieces(secs[..|secs| - 1]) + [Piece(secs[|secs| - 1])]
  }

  /** The `i`-th piece is that of the `i`-th `sec`. */
  lemma {:induction false} PieceAt(secs: seq<Xml>, i: nat)
    requires i < |secs|
    ensures Pieces(secs)[i] == Piece(secs[i])
  {
    if i < |secs| - 1 {
      PieceAt(secs[..|secs| - 1], i);
    }
  }

  /** One more piece extends exactly the section it names. */
  lemma AccumulatedStep(ps: seq<Option<(Section, string)>>, i: nat)
    requires i < |ps|
    ensures ps[i].None? ==> forall k :: AccumulatedTo(ps, i + 1, k) == AccumulatedTo(ps, i, k)
    ensures ps[i].Some? ==> forall k :: AccumulatedTo(ps, i + 1, k) == (if k == ps[i].value.0
                                                                         then AccumulatedTo(ps, i, k) + " " + ps[i].value.1
                                                                         else AccumulatedTo(ps, i, k))
  {
  }

  /** What the `sec` elements of `secs` add to section `key`, before cleaning. */
  function Accumulated(secs: seq<Xml>, key: Section): string {
    AccumulatedTo(Pieces(secs), |secs|, key)
  }

  /** Only the first `n` pieces matter. */
  lemma {:induction false} AccumulatedPrefix(ps: seq<Option<(Section, string)>>, qs: seq<Option<(Section, string)>>,
                                             n: nat, key: Section)
    requires n <= |ps| && n <= |qs| && ps[..n] == qs[..n]
    ensures AccumulatedTo(ps, n, key) == AccumulatedTo(qs, n, key)
  {
    if n > 0 {
      assert ps[..n - 1] == ps[..n][..n - 1] && qs[..n - 1] == qs[..n][..n - 1];
      AccumulatedPrefix(ps, qs, n - 1, key);
      assert ps[n - 1] == ps[..n][n - 1];
      assert qs[n - 1] == qs[..n][n - 1];
    }
  }

  /** The pieces of `secs + [sec]` start with those of `secs`. */
  lemma PiecesSnoc(secs: seq<Xml>, sec: Xml)
    ensures Pieces(secs + [sec])[..|secs|] == Pieces(secs)
    ensures Pieces(secs + [sec])[|secs|] == Piece(sec)
  {
    assert (secs + [sec])[..|secs|] == secs;
  }

  /** A `sec` without a recognised title contributes nothing. */
  lemma UnrecognisedIgnored(secs: seq<Xml>, sec: Xml, key: Section)
    requires Piece(sec).None?
    ensures Accumulated(secs + [sec], key) == Accumulated(secs, key)
  {
    PiecesSnoc(secs, sec);
    AccumulatedPrefix(Pieces(secs + [sec]), Pieces(secs), |secs|, key);
  }

  /** A recognised `sec` appends `" " + text` to its own section and to no other. */
  lemma RecognisedAppends(secs: seq<Xml>, sec: Xml, key: Section)
    requires Piece(sec).Some?
    ensures Accumulated(secs + [sec], key) ==
              if Piece(sec).value.0 == key then Accumulated(secs, key) + " " + Piece(sec).value.1
              else Accumulated(secs, key)
  {
    PiecesSnoc(secs, sec);
    AccumulatedPrefix(Pieces(secs + [sec]), Pieces(secs), |secs|, key);
  }

  /** No piece is ever for the abstract. */
  lemma PieceNotAbstract(sec: Xml)
    ensures Piece(sec).Some? ==> Piece(sec).value.0 != Abstract
  {
    match FindFirst(sec.children, "title")
    case None =>
    case Some(te) => NeverAbstract(Lower(ExtractText(te)));
  }

  /** Nothing in the body is ever added to the abstract. */
  lemma AbstractNotAccumulated(secs: seq<Xml>)
    ensures Accumulated(secs, Abstract) == ""
  {
    var ps := Pieces(secs);
    forall i | 0 <= i < |secs|
      ensures ps[i].Some? ==> ps[i].value.0 != Abstract
    {
      PieceAt(secs, i);
      PieceNotAbstract(secs[i]);
    }
    NoAbstractPiece(ps, |ps|);
  }

  lemma {:induction false} NoAbstractPiece(ps: seq<Option<(Section, string)>>, n: nat)
    requires n <= |ps|
    requires forall i :: 0 <= i < |ps| && ps[i].Some? ==> ps[i].value.0 != Abstract
    ensures AccumulatedTo(ps, n, Abstract) == ""
  {
    if n > 0 {
      NoAbstractPiece(ps, n - 1);
    }
  }

  /** The `sec` elements `_parse_pmc_xml` visits: all those below the first `body`. */
  function BodySecs(root: Xml): seq<Xml> {
    match FindFirst(Descendants(root), "body")
    case None => []
    case Some(body) => FindAll(Descendants(body), "sec")
  }

  /** The abstract text before cleaning. */
  function AbstractText(root: Xml): string {
    match FindFirst(Descendants(root), "abstract")
    case None => ""
    case Some(a) => ExtractText(a)
  }

  /** A dict holding every section key. */
  predicate AllSections(m: map<Section, string>) {
    forall s: Section :: s in m
  }

  /** `Sections` lists every section. */
  lemma SectionsComplete()
    ensures forall k: Section :: k in Sections
  {
    forall k: Section
      ensures k in Sections
    {
      assert Sections[Position(k)] == k;
    }
  }

  /** The sections dict as `_parse_pmc_xml` first builds it. */
  const EmptySections: map<Section, string> := map[Abstract := "", Introduction := "", Methods := "",
                                                   Results := "", Discussion := "", Conclusions := ""]

  /** The body of that loop up to the update, for the `i`-th `sec`: the
      section it names through its `title` child, and its text without the
      title. */
  method SecPiece(secs: seq<Xml>, i: nat) returns (piece: Option<(Section, string)>)
    requires i < |secs|
    ensures piece == Pieces(secs)[i]
    ensures piece.Some? ==> piece.value.0 != Abstract
  {
    var sec := secs[i];
    PieceAt(secs, i);
    PieceNotAbstract(sec);
    piece := None;
    var titleElem := FindFirst(sec.children, "title");
    if titleElem.Some? {
      var title := Lower(ExtractText(titleElem.value));
      var sectionType := IdentifySection(title);
      if sectionType.Some? {
        var text := ExtractText(sec);
        var titleText := ExtractText(titleElem.value);
        text := Strip(ReplaceFirst(text, titleText, ""));
        piece := Some((sectionType.value, text));
      }
    }
  }

  /** The loop over the `sec` elements of the body: each recognised one
      appends its text to its own section. */
  method AddBodySections(secs: seq<Xml>, start: map<Section, string>) returns (sections: map<Section, string>)
    requires AllSections(start)
    requires forall k :: k != Abstract ==> start[k] == ""
    ensures AllSections(sections) && sections[Abstract] == start[Abstract]
    ensures forall k :: k != Abstract ==> sections[k] == Accumulated(secs, k)
  {
    sections := start;
    ghost var ps := Pieces(secs);
    for i := 0 to |secs|
      invariant AllSections(sections) && sections[Abstract] == start[Abstract]
      invariant forall k :: k != Abstract ==> sections[k] == AccumulatedTo(ps, i, k)
    {
      var piece := SecPiece(secs, i);
      AccumulatedStep(ps, i);
      if piece.Some? {
        var (sectionType, text) := piece.value;
        sections := sections[sectionType := sections[sectionType] + " " + text];
      }
    }
  }

  /** The position of a key in the dict's insertion order. */
  function Position(k: Section): (r: nat)
    ensures r < |Sections| && Sections[r] == k
    ensures forall j :: 0 <= j < |Sections| && Sections[j] == k ==> j == r
  {
    match k
    case Abstract => 0
    case Introduction => 1
    case Methods => 2
    case Results => 3
    case Discussion => 4
    case Conclusions => 5
  }

  /** The final loop, over the keys in insertion order: every section is
      replaced by its clean text. */
  method CleanSections(raw: map<Section, string>) returns (sections: map<Section, string>)
    requires AllSections(raw)
    ensures AllSections(sections)
    ensures forall k :: sections[k] == CleanText(raw[k])
  {
    sections := raw;
    for i := 0 to |Sections|
      invariant AllSections(sections)
      invariant forall k :: sections[k] == if Position(k) < i then CleanText(raw[k]) else raw[k]
    {
      var key := Sections[i];
      assert Position(key) == i;
      sections := sections[key := CleanText(sections[key])];
    }
  }

  /** `_parse_pmc_xml`; `doc` is None when `ET.fromstring` raises, and then the
      six sections stay empty. */
  method ParsePmcXml(doc: Option<Xml>) returns (sections: map<Section, string>)
    ensures AllSections(sections)
    ensures forall k :: Clean(sections[k])
    ensures doc.None? ==> forall k :: sections[k] == ""
    ensures doc.Some? ==> forall k :: sections[k] == CleanText(if k == Abstract then AbstractText(doc.value)
                                                               else Accumulated(BodySecs(doc.value), k))
  {
    sections := EmptySections;
    assert AllSections(sections) by {
      forall k: Section
        ensures k in sections
      {
        match k
        case Abstract => case Introduction => case Methods =>
        case Results => case Discussion => case Conclusions =>
      }
    }
    if doc.None? {
      assert Clean("");
      return;
    }
    var root := doc.value;
    var abs := FindFirst(Descendants(root), "abstract");
    if abs.Some? {
      sections := sections[Abstract := ExtractText(abs.value)];
    }
    assert sections[Abstract] == AbstractText(root);
    assert forall k :: k != Abstract ==> sections[k] == "";
    var body := FindFirst(Descendants(root), "body");
    if body.Some? {
      sections := AddBodySections(FindAll(Descendants(body.value), "sec"), sections);
    } else {
      assert BodySecs(root) == [];
    }
    assert forall k :: sections[k] == if k == Abstract then AbstractText(root) else Accumulated(BodySecs(root), k);
    sections := CleanSections(sections);
    forall k
      ensures Clean(sections[k])
    {
      CleanTextClean(if k == Abstract then AbstractText(root) else Accumulated(BodySecs(root), k));
    }
  }
}
