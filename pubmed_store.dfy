/** The vector-store side of views/news/pubmed_vector_store.py: point ids,
    the existence check, the truncation guards in front of the embedding and
    translation services, `save_paper` and `save_pubmed_items_to_qdrant`.
    The services themselves (NCBI, OpenAI) are the oracles of `Services`. */
module PubmedStore {
  import opened Wrappers
  import opened Text
  import opened PySlice
  import opened PubmedSections

  type Vector = seq<real>

  /** The answers of the services a paper is saved with. `embed` is the
      embeddings call (an error is an exception), `chat` the translation call
      on (section name in Japanese, text) (None is an exception), `pmcidOf` the
      idconv lookup ("" when there is no PMC id), `fulltextOf` the efetch and
      parse of a PMC article (None when it fails). */
  datatype Services = Services(
    embed: string -> Result<Vector, string>,
    chat: (string, string) -> Option<string>,
    pmcidOf: string -> string,
    fulltextOf: string -> Option<map<Section, string>>)

  /** A collected news item, as the dict `save_paper` reads; a missing key reads as "". */
  datatype PaperItem = PaperItem(
    source: string, pmid: string, title: string, url: string,
    publishedAt: string, summary: string, author: string, lang: string)

  const PubmedHost: string := "pubmed.ncbi.nlm.nih.gov"

  /** The pmid of an item: its own field, or else the last path segment of a
      PubMed URL once trailing slashes are stripped. */
  function PmidFrom(pmid: string, url: string): (r: string)
    ensures pmid != "" ==> r == pmid
    ensures pmid == "" && !Contains(url, PubmedHost) ==> r == ""
  {
    if pmid != "" then pmid
    else if Contains(url, PubmedHost) then AfterLast(RStripChar(url, '/'), '/')
    else ""
  }

  /** From a PubMed URL the pmid is the last slash-free segment of the URL
      without its trailing slashes. */
  lemma PmidIsLastSegment(url: string)
    requires Contains(url, PubmedHost)
    ensures var r := PmidFrom("", url);
            var u := RStripChar(url, '/');
            && '/' !in r && |r| <= |u| && r == u[|u| - |r|..]
            && (|r| < |u| ==> u[|u| - |r| - 1] == '/')
  {
    LastSegment(RStripChar(url, '/'));
  }

  lemma LastSegment(u: string)
    ensures var r := AfterLast(u, '/');
            && '/' !in r && |r| <= |u| && r == u[|u| - |r|..]
            && (|r| < |u| ==> u[|u| - |r| - 1] == '/')
  {
  }

  // ----- point ids -----

  datatype Lang = En | Ja

  function LangCode(l: Lang): (r: string)
    ensures '_' !in r
  {
    match l
    case En => "en"
    case Ja => "ja"
  }

  /** `uuid5(NAMESPACE_URL, name)`: an id determined by, and determining, its name. */
  datatype PointId = PointId(name: string)

  function PointName(pmid: string, sec: Section, lang: Lang): string {
    "pubmed_" + pmid + "_" + Name(sec) + "_" + LangCode(lang)
  }

  /** `_generate_point_id`. */
  function PointIdOf(pmid: string, sec: Section, lang: Lang): PointId {
    PointId(PointName(pmid, sec, lang))
  }

  /** A string ending in `_` and an underscore-free part splits there uniquely. */
  lemma SplitAtLastUnderscore(a: string, b: string, c: string, d: string)
    requires '_' !in b && '_' !in d && a + "_" + b == c + "_" + d
    ensures a == c && b == d
  {
    var s := a + "_" + b;
    assert s[|s| - |b| - 1] == '_';
    assert s[|s| - |d| - 1] == '_';
    if |b| < |d| {
      assert false;
    } else if |d| < |b| {
      assert false;
    }
    assert a == s[..|a|] && c == s[..|c|];
    assert b == s[|s| - |b|..] && d == s[|s| - |d|..];
  }

  /** Different (pmid, section, language) triples never share a point id. */
  lemma PointIdInjective(p1: string, s1: Section, l1: Lang, p2: string, s2: Section, l2: Lang)
    ensures PointIdOf(p1, s1, l1) == PointIdOf(p2, s2, l2) ==> p1 == p2 && s1 == s2 && l1 == l2
  {
    if PointIdOf(p1, s1, l1) == PointIdOf(p2, s2, l2) {
      SplitAtLastUnderscore("pubmed_" + p1 + "_" + Name(s1), LangCode(l1),
                            "pubmed_" + p2 + "_" + Name(s2), LangCode(l2));
      SplitAtLastUnderscore("pubmed_" + p1, Name(s1), "pubmed_" + p2, Name(s2));
      assert p1 == ("pubmed_" + p1)[7..] && p2 == ("pubmed_" + p2)[7..];
      NameInjective(s1, s2);
      LangCodeInjective(l1, l2);
    }
  }

  lemma LangCodeInjective(l1: Lang, l2: Lang)
    ensures LangCode(l1) == LangCode(l2) ==> l1 == l2
  {
    if l1 != l2 {
      assert LangCode(l1)[0] != LangCode(l2)[0];
    }
  }

  // ----- service input guards -----

  /** What `get_embedding` sends: the first 8000 characters. */
  function EmbedInput(text: string): (r: string)
    ensures |r| <= 8000 && StartsWith(text, r)
    ensures |text| <= 8000 ==> r == text
  {
    Take(text, 8000)
  }

  function Embed(svc: Services, text: string): Result<Vector, string> {
    svc.embed(EmbedInput(text))
  }

  /** What a text is translated as: a section, or the paper's title. */
  datatype Subject = SectionOf(sec: Section) | TitleOf

  /** The Japanese names of `translate_to_japanese` and of the Japanese chunk header. */
  function SubjectJa(s: Subject): string {
    match s
    case SectionOf(Abstract) => "アブストラクト"
    case SectionOf(Introduction) => "序論"
    case SectionOf(Methods) => "材料と方法"
    case SectionOf(Results) => "結果"
    case SectionOf(Discussion) => "考察"
    case SectionOf(Conclusions) => "結論"
    case TitleOf => "タイトル"
  }

  /** What `translate_to_japanese` sends: the first 6000 characters. */
  function TranslateInput(text: string): (r: string)
    ensures |r| <= 6000 && StartsWith(text, r)
    ensures |text| <= 6000 ==> r == text
  {
    Take(text, 6000)
  }

  /** `translate_to_japanese`: "" for an empty text, for one with fewer than
      10 non-blank characters, and when the service fails; otherwise the
      stripped answer to the truncated text. */
  function Translate(svc: Services, text: string, subject: Subject): (r: string)
    ensures text == "" || |Strip(text)| < 10 ==> r == ""
    ensures text != "" && |Strip(text)| >= 10 && svc.chat(SubjectJa(subject), TranslateInput(text)).None? ==> r == ""
    ensures text != "" && |Strip(text)| >= 10 && svc.chat(SubjectJa(subject), TranslateInput(text)).Some? ==>
              r == Strip(svc.chat(SubjectJa(subject), TranslateInput(text)).value)
  {
    if text == "" || |Strip(text)| < 10 then ""
    else
      match svc.chat(SubjectJa(subject), TranslateInput(text))
      case None => ""
      case Some(answer) => Strip(answer)
  }

  // ----- one paper -----

  /** A stored chunk: its id, vector and the payload fields the model keeps.
      `weightTenths` is the payload's weight times ten. */
  datatype Point = Point(
    id: PointId, vector: Vector, text: string, title: string,
    pmid: string, pmcid: string, section: Section, lang: Lang,
    weightTenths: nat, sectionText: string, url: string, fulltextAvailable: bool)

  /** What `save_paper` knows about a paper once its sections are fixed. */
  datatype Paper = Paper(pmid: string, pmcid: string, title: string, url: string, fulltextAvailable: bool)

  /** 1.0 for the abstract, 0.8 for any other section. */
  function WeightTenths(sec: Section): nat {
    if sec == Abstract then 10 else 8
  }

  /** The running state of the section loop of `save_paper`: the points so
      far, the counters, and the cached title translation. */
  datatype Progress = Progress(points: seq<Point>, saved: nat, skipped: nat, titleJa: Option<string>)

  const Start: Progress := Progress([], 0, 0, None)

  /** Sections shorter than this, once stripped, are not stored. */
  predicate LongEnough(text: string) {
    text != "" && |Strip(text)| >= 50
  }

  function EnText(p: Paper, sec: Section, text: string): string {
    p.title + "\n\n[" + Upper(Name(sec)) + "]\n" + text
  }

  function JaText(title: string, sec: Section, textJa: string): string {
    title + "\n\n[" + SubjectJa(SectionOf(sec)) + "]\n" + textJa
  }

  /** The English half of a section: skipped when its id is stored, else one
      new point (an embedding error ends the paper). */
  function EnStep(ids: set<PointId>, svc: Services, p: Paper, sec: Section, text: string, pr: Progress)
    : Result<Progress, string>
  {
    if PointIdOf(p.pmid, sec, En) in ids then Ok(pr.(skipped := pr.skipped + 1))
    else
      match Embed(svc, EnText(p, sec, text))
      case Err(e) => Err(e)
      case Ok(v) => Ok(pr.(points := pr.points + [EnPoint(p, sec, text, v)], saved := pr.saved + 1))
  }

  /** The English chunk of a section, embedded as `v`. */
  function EnPoint(p: Paper, sec: Section, text: string, v: Vector): Point {
    Point(PointIdOf(p.pmid, sec, En), v, EnText(p, sec, text), p.title, p.pmid, p.pmcid, sec, En, WeightTenths(sec),
          text, p.url, p.fulltextAvailable)
  }

  /** The Japanese half: skipped when its id is stored; nothing when the
      translation is empty; else one new point, whose title is the title's
      translation (asked for once per paper) or the original title. */
  function JaStep(ids: set<PointId>, svc: Services, p: Paper, sec: Section, text: string, pr: Progress)
    : Result<Progress, string>
  {
    if PointIdOf(p.pmid, sec, Ja) in ids then Ok(pr.(skipped := pr.skipped + 1))
    else
      var textJa := Translate(svc, text, SectionOf(sec));
      if textJa == "" then Ok(pr) else JaEmbed(svc, p, sec, textJa, pr)
  }

  /** The Japanese chunk of a translated section, embedded and added. */
  function JaEmbed(svc: Services, p: Paper, sec: Section, textJa: string, pr: Progress): Result<Progress, string> {
    var titleJa := CachedTitle(svc, p, pr.titleJa);
    match Embed(svc, JaText(DisplayTitle(p, titleJa), sec, textJa))
    case Err(e) => Err(e)
    case Ok(v) => Ok(Progress(pr.points + [JaPoint(p, sec, titleJa, textJa, v)], pr.saved + 1, pr.skipped,
                              Some(titleJa)))
  }

  /** The title's translation: the cached one, or else asked for now. */
  function CachedTitle(svc: Services, p: Paper, cached: Option<string>): string {
    if cached.Some? then cached.value else Translate(svc, p.title, TitleOf)
  }

  /** The Japanese chunk of a section, embedded as `v`. */
  function JaPoint(p: Paper, sec: Section, titleJa: string, textJa: string, v: Vector): Point {
    var display := DisplayTitle(p, titleJa);
    Point(PointIdOf(p.pmid, sec, Ja), v, JaText(display, sec, textJa), display, p.pmid, p.pmcid, sec, Ja,
          WeightTenths(sec), textJa, p.url, p.fulltextAvailable)
  }

  /** One pass of the section loop. */
  function SectionStep(ids: set<PointId>, svc: Services, p: Paper, sec: Section, text: string, pr: Progress)
    : Result<Progress, string>
  {
    if !LongEnough(text) then Ok(pr)
    else
      match EnStep(ids, svc, p, sec, text, pr)
      case Err(e) => Err(e)
      case Ok(pr1) => JaStep(ids, svc, p, sec, text, pr1)
  }

  /** The section loop from the `i`-th section on, in the dict's order. */
  function SaveFrom(ids: set<PointId>, svc: Services, p: Paper, sections: map<Section, string>, i: nat, pr: Progress)
    : Result<Progress, string>
    requires i <= |Sections| && AllSections(sections)
    decreases |Sections| - i
  {
    if i == |Sections| then Ok(pr)
    else
      match SectionStep(ids, svc, p, Sections[i], sections[Sections[i]], pr)
      case Err(e) => Err(e)
      case Ok(pr1) => SaveFrom(ids, svc, p, sections, i + 1, pr1)
  }

  /** The abstract-only sections of an item. */
  function BaseSections(summary: string): (r: map<Section, string>)
    ensures AllSections(r)
    ensures r[Abstract] == summary && forall k :: k != Abstract ==> r[k] == ""
  {
    SectionsComplete();
    map k | k in Sections :: if k == Abstract then summary else ""
  }

  /** The sections once the full text, when there is one, has overridden
      each section it has a non-empty value for. */
  function Merged(base: map<Section, string>, fulltext: Option<map<Section, string>>): (r: map<Section, string>)
    requires AllSections(base)
    ensures AllSections(r)
    ensures forall k :: r[k] == if fulltext.Some? && k in fulltext.value && fulltext.value[k] != "" then fulltext.value[k]
                                else base[k]
  {
    map k | k in base :: if fulltext.Some? && k in fulltext.value && fulltext.value[k] != "" then fulltext.value[k] else base[k]
  }

  /** The sections once the first `n` keys, in insertion order, have been
      overridden by the full text. */
  ghost function OverriddenUpTo(base: map<Section, string>, ft: map<Section, string>, n: nat): map<Section, string>
    requires n <= |Sections|
  {
    if n == 0 then base
    else
      var prev, key := OverriddenUpTo(base, ft, n - 1), Sections[n - 1];
      if key in ft && ft[key] != "" then prev[key := ft[key]] else prev
  }

  lemma {:induction false} OverriddenUpToIs(base: map<Section, string>, ft: map<Section, string>, n: nat)
    requires n <= |Sections| && AllSections(base)
    ensures AllSections(OverriddenUpTo(base, ft, n))
    ensures forall k :: OverriddenUpTo(base, ft, n)[k] ==
              if k in Sections[..n] && k in ft && ft[k] != "" then ft[k] else base[k]
  {
    if n > 0 {
      OverriddenUpToIs(base, ft, n - 1);
      var prev, key := OverriddenUpTo(base, ft, n - 1), Sections[n - 1];
      var next := OverriddenUpTo(base, ft, n);
      assert Sections[..n] == Sections[..n - 1] + [key];
      forall k
        ensures next[k] == if k in Sections[..n] && k in ft && ft[k] != "" then ft[k] else base[k]
      {
        if k != key {
          assert next[k] == prev[k];
        }
      }
    }
  }

  lemma SameSections(a: map<Section, string>, b: map<Section, string>)
    requires AllSections(a) && AllSections(b) && forall k :: a[k] == b[k]
    ensures a == b
  {
  }

  /** The fetched full text counts only when there was a PMC id and the parse gave a non-empty dict. */
  function Fulltext(svc: Services, pmcid: string): Option<map<Section, string>> {
    if pmcid == "" then None
    else
      var ft := svc.fulltextOf(pmcid);
      if ft.Some? && |ft.value| > 0 then ft else None
  }

  /** `save_paper` against a store holding `ids`: the points and counters it
      produces, or the error that ends it. An item without pmid is not saved. */
  function Plan(ids: set<PointId>, svc: Services, item: PaperItem): Result<Progress, string> {
    var pmid := PmidFrom(item.pmid, item.url);
    if pmid == "" then Ok(Start)
    else
      var pmcid := svc.pmcidOf(pmid);
      var ft := Fulltext(svc, pmcid);
      var p := Paper(pmid, pmcid, item.title, item.url, ft.Some?);
      SaveFrom(ids, svc, p, Merged(BaseSections(item.summary), ft), 0, Start)
  }

  // ----- what a plan produces -----

  /** Points come out ordered by section, English before Japanese. */
  function Key(point: Point): nat {
    2 * Position(point.section) + if point.lang == En then 0 else 1
  }

  /** A point a plan adds: a new id, the id of its own (pmid, section,
      language), the weight of its section, a section long enough to store,
      and for a Japanese point the title's translation (or the title). */
  ghost predicate GoodPoint(ids: set<PointId>, svc: Services, p: Paper, sections: map<Section, string>, point: Point)
    requires AllSections(sections)
  {
    && point.id == PointIdOf(p.pmid, point.section, point.lang)
    && point.id !in ids
    && point.weightTenths == WeightTenths(point.section)
    && LongEnough(sections[point.section])
    && (point.lang == Ja ==> point.title == DisplayTitle(p, Translate(svc, p.title, TitleOf)))
  }

  /** The title of a Japanese point: the translated title, or the original when that is empty. */
  function DisplayTitle(p: Paper, titleJa: string): string {
    if titleJa != "" then titleJa else p.title
  }

  /** The running state of the loop is sound: good points in increasing key
      order, all keys below `bound`, one saved count per point, and the cached
      title translation is the title's translation. */
  ghost predicate Sound(ids: set<PointId>, svc: Services, p: Paper, sections: map<Section, string>, bound: nat,
                        pr: Progress)
    requires AllSections(sections)
  {
    && pr.saved == |pr.points|
    && (forall j :: 0 <= j < |pr.points| ==> GoodPoint(ids, svc, p, sections, pr.points[j]) && Key(pr.points[j]) < bound)
    && (forall j, k :: 0 <= j < k < |pr.points| ==> Key(pr.points[j]) < Key(pr.points[k]))
    && (pr.titleJa.Some? ==> pr.titleJa.value == Translate(svc, p.title, TitleOf))
  }

  lemma SoundWeaken(ids: set<PointId>, svc: Services, p: Paper, sections: map<Section, string>, bound: nat,
                    bound': nat, pr: Progress)
    requires AllSections(sections) && Sound(ids, svc, p, sections, bound, pr) && bound <= bound'
    ensures Sound(ids, svc, p, sections, bound', pr)
  {
  }

  /** Adding a good point past every key so far keeps the state sound. */
  lemma SnocSound(ids: set<PointId>, svc: Services, p: Paper, sections: map<Section, string>, bound: nat,
                  pr: Progress, point: Point, pr': Progress)
    requires AllSections(sections) && Sound(ids, svc, p, sections, bound, pr)
    requires GoodPoint(ids, svc, p, sections, point) && bound <= Key(point)
    requires pr'.points == pr.points + [point] && pr'.saved == pr.saved + 1
    requires pr'.titleJa.Some? ==> pr'.titleJa.value == Translate(svc, p.title, TitleOf)
    ensures Sound(ids, svc, p, sections, Key(point) + 1, pr')
  {
    forall j | 0 <= j < |pr'.points|
      ensures GoodPoint(ids, svc, p, sections, pr'.points[j]) && Key(pr'.points[j]) < Key(point) + 1
    {
      if j < |pr.points| {
        assert pr'.points[j] == pr.points[j];
      } else {
        assert pr'.points[j] == point;
      }
    }
    forall j, k | 0 <= j < k < |pr'.points|
      ensures Key(pr'.points[j]) < Key(pr'.points[k])
    {
      assert pr'.points[j] == pr.points[j];
      if k < |pr.points| {
        assert pr'.points[k] == pr.points[k];
      } else {
        assert pr'.points[k] == point;
      }
    }
  }

  lemma EnStepSound(ids: set<PointId>, svc: Services, p: Paper, sections: map<Section, string>, i: nat, pr: Progress)
    requires i < |Sections| && AllSections(sections) && Sound(ids, svc, p, sections, 2 * i, pr)
    requires LongEnough(sections[Sections[i]])
    ensures var r := EnStep(ids, svc, p, Sections[i], sections[Sections[i]], pr);
            r.Ok? ==> Sound(ids, svc, p, sections, 2 * i + 1, r.value)
  {
    var sec := Sections[i];
    assert Position(sec) == i;
    var r := EnStep(ids, svc, p, sec, sections[sec], pr);
    if r.Ok? {
      if PointIdOf(p.pmid, sec, En) in ids {
        SoundWeaken(ids, svc, p, sections, 2 * i, 2 * i + 1, pr.(skipped := pr.skipped + 1));
      } else {
        var point := r.value.points[|pr.points|];
        SnocSound(ids, svc, p, sections, 2 * i, pr, point, r.value);
      }
    }
  }

  lemma JaStepSound(ids: set<PointId>, svc: Services, p: Paper, sections: map<Section, string>, i: nat, pr: Progress)
    requires i < |Sections| && AllSections(sections) && Sound(ids, svc, p, sections, 2 * i + 1, pr)
    requires LongEnough(sections[Sections[i]])
    ensures var r := JaStep(ids, svc, p, Sections[i], sections[Sections[i]], pr);
            r.Ok? ==> Sound(ids, svc, p, sections, 2 * i + 2, r.value)
  {
    var sec := Sections[i];
    assert Position(sec) == i;
    var r := JaStep(ids, svc, p, sec, sections[sec], pr);
    if r.Ok? {
      if PointIdOf(p.pmid, sec, Ja) in ids {
        SoundWeaken(ids, svc, p, sections, 2 * i + 1, 2 * i + 2, pr.(skipped := pr.skipped + 1));
      } else if Translate(svc, sections[sec], SectionOf(sec)) == "" {
        SoundWeaken(ids, svc, p, sections, 2 * i + 1, 2 * i + 2, pr);
      } else {
        var point := r.value.points[|pr.points|];
        SnocSound(ids, svc, p, sections, 2 * i + 1, pr, point, r.value);
      }
    }
  }

  /** One section keeps the state sound. */
  lemma SectionStepSound(ids: set<PointId>, svc: Services, p: Paper, sections: map<Section, string>, i: nat, pr: Progress)
    requires i < |Sections| && AllSections(sections) && Sound(ids, svc, p, sections, 2 * i, pr)
    ensures var r := SectionStep(ids, svc, p, Sections[i], sections[Sections[i]], pr);
            r.Ok? ==> Sound(ids, svc, p, sections, 2 * (i + 1), r.value)
  {
    var sec := Sections[i];
    if LongEnough(sections[sec]) {
      EnStepSound(ids, svc, p, sections, i, pr);
      var r1 := EnStep(ids, svc, p, sec, sections[sec], pr);
      if r1.Ok? {
        JaStepSound(ids, svc, p, sections, i, r1.value);
      }
    } else {
      SoundWeaken(ids, svc, p, sections, 2 * i, 2 * (i + 1), pr);
    }
  }

  lemma {:induction false} SaveFromSound(ids: set<PointId>, svc: Services, p: Paper, sections: map<Section, string>,
                                         i: nat, pr: Progress)
    requires i <= |Sections| && AllSections(sections) && Sound(ids, svc, p, sections, 2 * i, pr)
    ensures var r := SaveFrom(ids, svc, p, sections, i, pr);
            r.Ok? ==> Sound(ids, svc, p, sections, 2 * |Sections|, r.value)
    decreases |Sections| - i
  {
    if i < |Sections| {
      SectionStepSound(ids, svc, p, sections, i, pr);
      var r1 := SectionStep(ids, svc, p, Sections[i], sections[Sections[i]], pr);
      if r1.Ok? {
        SaveFromSound(ids, svc, p, sections, i + 1, r1.value);
      }
    }
  }

  /** Points with different keys have different ids. */
  lemma KeysSeparateIds(a: Point, b: Point, pmid: string)
    requires a.id == PointIdOf(pmid, a.section, a.lang) && b.id == PointIdOf(pmid, b.section, b.lang)
    requires Key(a) < Key(b)
    ensures a.id != b.id
  {
    PointIdInjective(pmid, a.section, a.lang, pmid, b.section, b.lang);
  }

  /** What a successful `save_paper` adds: `saved` points with distinct new
      ids, each the id of its own (pmid, section, language), weighted 1.0 for
      the abstract and 0.8 otherwise; all Japanese points carry one title. */
  lemma PlanPoints(ids: set<PointId>, svc: Services, item: PaperItem)
    ensures var r := Plan(ids, svc, item);
            r.Ok? ==>
              && r.value.saved == |r.value.points|
              && (forall j, k :: 0 <= j < k < |r.value.points| ==> r.value.points[j].id != r.value.points[k].id)
              && (forall j :: 0 <= j < |r.value.points| ==>
                    var pt := r.value.points[j];
                    && pt.id !in ids && pt.id == PointIdOf(PmidFrom(item.pmid, item.url), pt.section, pt.lang)
                    && pt.weightTenths == WeightTenths(pt.section))
              && (forall j, k :: (0 <= j < |r.value.points| && 0 <= k < |r.value.points| &&
                                  r.value.points[j].lang == Ja && r.value.points[k].lang == Ja) ==>
                    r.value.points[j].title == r.value.points[k].title)
  {
    var pmid := PmidFrom(item.pmid, item.url);
    if pmid != "" {
      var pmcid := svc.pmcidOf(pmid);
      var ft := Fulltext(svc, pmcid);
      var p := Paper(pmid, pmcid, item.title, item.url, ft.Some?);
      var sections := Merged(BaseSections(item.summary), ft);
      SaveFromSound(ids, svc, p, sections, 0, Start);
      var r := Plan(ids, svc, item);
      if r.Ok? {
        var ps := r.value.points;
        forall j, k | 0 <= j < k < |ps|
          ensures ps[j].id != ps[k].id
        {
          KeysSeparateIds(ps[j], ps[k], pmid);
        }
      }
    }
  }

  /** A section too short to store adds no point. */
  lemma ShortSectionsIgnored(ids: set<PointId>, svc: Services, item: PaperItem, pmid: string)
    requires pmid == PmidFrom(item.pmid, item.url) && pmid != ""
    ensures var ft := Fulltext(svc, svc.pmcidOf(pmid));
            var sections := Merged(BaseSections(item.summary), ft);
            var r := Plan(ids, svc, item);
            r.Ok? ==> forall j :: 0 <= j < |r.value.points| ==> LongEnough(sections[r.value.points[j].section])
  {
    var pmcid := svc.pmcidOf(pmid);
    var ft := Fulltext(svc, pmcid);
    var p := Paper(pmid, pmcid, item.title, item.url, ft.Some?);
    SaveFromSound(ids, svc, p, Merged(BaseSections(item.summary), ft), 0, Start);
  }

  /** How many of the sections from the `i`-th on are long enough to store. */
  function LongCount(sections: map<Section, string>, i: nat): nat
    requires i <= |Sections| && AllSections(sections)
    decreases |Sections| - i
  {
    if i == |Sections| then 0
    else (if LongEnough(sections[Sections[i]]) then 1 else 0) + LongCount(sections, i + 1)
  }

  lemma StoredSectionSkipped(ids: set<PointId>, svc: Services, p: Paper, sec: Section, text: string, pr: Progress)
    requires PointIdOf(p.pmid, sec, En) in ids && PointIdOf(p.pmid, sec, Ja) in ids
    ensures SectionStep(ids, svc, p, sec, text, pr) ==
              Ok(pr.(skipped := pr.skipped + if LongEnough(text) then 2 else 0))
  {
    if LongEnough(text) {
      var pr1 := pr.(skipped := pr.skipped + 1);
      assert EnStep(ids, svc, p, sec, text, pr) == Ok(pr1);
      assert JaStep(ids, svc, p, sec, text, pr1) == Ok(pr1.(skipped := pr1.skipped + 1));
    }
  }

  /** Against a store that already holds both chunks of every storable
      section, the loop adds nothing and counts two skips per such section. */
  lemma {:induction false} AllStoredSkipped(ids: set<PointId>, svc: Services, p: Paper, sections: map<Section, string>,
                                            i: nat, pr: Progress)
    requires i <= |Sections| && AllSections(sections)
    requires forall sec, l :: PointIdOf(p.pmid, sec, l) in ids
    ensures var r := SaveFrom(ids, svc, p, sections, i, pr);
            && r.Ok? && r.value.points == pr.points && r.value.saved == pr.saved
            && r.value.skipped == pr.skipped + 2 * LongCount(sections, i) && r.value.titleJa == pr.titleJa
    decreases |Sections| - i
  {
    if i < |Sections| {
      var sec := Sections[i];
      StoredSectionSkipped(ids, svc, p, sec, sections[sec], pr);
      var n := if LongEnough(sections[sec]) then 2 else 0;
      var pr1 := pr.(skipped := pr.skipped + n);
      assert SaveFrom(ids, svc, p, sections, i, pr) == SaveFrom(ids, svc, p, sections, i + 1, pr1);
      AllStoredSkipped(ids, svc, p, sections, i + 1, pr1);
    }
  }

  /** Re-running `save_paper` against a store that holds every chunk of the
      paper's (pmid, section, language) triples stores nothing. */
  lemma RerunSkipsEverything(ids: set<PointId>, svc: Services, item: PaperItem)
    requires forall sec, l :: PointIdOf(PmidFrom(item.pmid, item.url), sec, l) in ids
    ensures Plan(ids, svc, item).Ok? && Plan(ids, svc, item).value.points == [] && Plan(ids, svc, item).value.saved == 0
  {
    var pmid := PmidFrom(item.pmid, item.url);
    if pmid != "" {
      var pmcid := svc.pmcidOf(pmid);
      var ft := Fulltext(svc, pmcid);
      var p := Paper(pmid, pmcid, item.title, item.url, ft.Some?);
      AllStoredSkipped(ids, svc, p, Merged(BaseSections(item.summary), ft), 0, Start);
    }
  }

  // ----- what a plan stores, section by section -----

  /** Some point has section `sec` and language `l`. */
  predicate Has(ps: seq<Point>, sec: Section, l: Lang)
    decreases |ps|
  {
    ps != [] && ((ps[|ps| - 1].section == sec && ps[|ps| - 1].lang == l) || Has(ps[..|ps| - 1], sec, l))
  }

  lemma HasSnoc(ps: seq<Point>, pt: Point, sec: Section, l: Lang)
    ensures Has(ps + [pt], sec, l) <==> Has(ps, sec, l) || (pt.section == sec && pt.lang == l)
  {
    assert (ps + [pt])[..|ps|] == ps;
  }

  lemma {:induction false} HasIff(ps: seq<Point>, sec: Section, l: Lang)
    ensures Has(ps, sec, l) <==> exists j :: 0 <= j < |ps| && ps[j].section == sec && ps[j].lang == l
    decreases |ps|
  {
    if ps != [] {
      var init := ps[..|ps| - 1];
      HasIff(init, sec, l);
      if j :| 0 <= j < |ps| && ps[j].section == sec && ps[j].lang == l {
        if j < |init| {
          assert init[j] == ps[j];
        }
      }
      if j :| 0 <= j < |init| && init[j].section == sec && init[j].lang == l {
        assert ps[j] == init[j];
      }
    }
  }

  /** Whether the chunk of `sec` in language `l` should be new: the section
      is long enough, its id is not stored, and a Japanese chunk also needs a
      non-empty translation. */
  predicate Wanted(ids: set<PointId>, svc: Services, pmid: string, sec: Section, text: string, l: Lang) {
    && LongEnough(text) && PointIdOf(pmid, sec, l) !in ids
    && (l == Ja ==> Translate(svc, text, SectionOf(sec)) != "")
  }

  /** The chunks of a long section that are already stored. */
  function StoredAt(ids: set<PointId>, pmid: string, sec: Section, text: string): nat {
    if !LongEnough(text) then 0
    else (if PointIdOf(pmid, sec, En) in ids then 1 else 0) + (if PointIdOf(pmid, sec, Ja) in ids then 1 else 0)
  }

  /** The already stored chunks of the long sections from the `i`-th on. */
  function StoredFrom(ids: set<PointId>, pmid: string, sections: map<Section, string>, i: nat): nat
    requires i <= |Sections| && AllSections(sections)
    decreases |Sections| - i
  {
    if i == |Sections| then 0
    else StoredAt(ids, pmid, Sections[i], sections[Sections[i]]) + StoredFrom(ids, pmid, sections, i + 1)
  }

  lemma EnStepComplete(ids: set<PointId>, svc: Services, p: Paper, sec: Section, text: string, pr: Progress,
                       s: Section, l: Lang)
    requires LongEnough(text)
    ensures var r := EnStep(ids, svc, p, sec, text, pr);
            r.Ok? ==>
              && (Has(r.value.points, s, l) <==> Has(pr.points, s, l) || (s == sec && l == En && Wanted(ids, svc, p.pmid, sec, text, En)))
              && r.value.skipped == pr.skipped + (if PointIdOf(p.pmid, sec, En) in ids then 1 else 0)
  {
    var r := EnStep(ids, svc, p, sec, text, pr);
    if r.Ok? && PointIdOf(p.pmid, sec, En) !in ids {
      HasSnoc(pr.points, r.value.points[|pr.points|], s, l);
      assert r.value.points == pr.points + [r.value.points[|pr.points|]];
    }
  }

  lemma JaEmbedHas(svc: Services, p: Paper, sec: Section, textJa: string, pr: Progress, s: Section, l: Lang)
    ensures var r := JaEmbed(svc, p, sec, textJa, pr);
            r.Ok? ==> (Has(r.value.points, s, l) <==> Has(pr.points, s, l) || (s == sec && l == Ja)) && r.value.skipped == pr.skipped
  {
    var r := JaEmbed(svc, p, sec, textJa, pr);
    if r.Ok? {
      var pt := r.value.points[|pr.points|];
      assert r.value.points == pr.points + [pt];
      HasSnoc(pr.points, pt, s, l);
    }
  }

  lemma JaStepComplete(ids: set<PointId>, svc: Services, p: Paper, sec: Section, text: string, pr: Progress,
                       s: Section, l: Lang)
    requires LongEnough(text)
    ensures var r := JaStep(ids, svc, p, sec, text, pr);
            r.Ok? ==>
              && (Has(r.value.points, s, l) <==> Has(pr.points, s, l) || (s == sec && l == Ja && Wanted(ids, svc, p.pmid, sec, text, Ja)))
              && r.value.skipped == pr.skipped + (if PointIdOf(p.pmid, sec, Ja) in ids then 1 else 0)
  {
    var textJa := Translate(svc, text, SectionOf(sec));
    if PointIdOf(p.pmid, sec, Ja) !in ids && textJa != "" {
      JaEmbedHas(svc, p, sec, textJa, pr, s, l);
    }
  }

  /** One section adds exactly its wanted chunks and counts its stored ones. */
  lemma SectionStepComplete(ids: set<PointId>, svc: Services, p: Paper, sec: Section, text: string, pr: Progress,
                            s: Section, l: Lang)
    ensures var r := SectionStep(ids, svc, p, sec, text, pr);
            r.Ok? ==>
              && (Has(r.value.points, s, l) <==> Has(pr.points, s, l) || (s == sec && Wanted(ids, svc, p.pmid, sec, text, l)))
              && r.value.skipped == pr.skipped + StoredAt(ids, p.pmid, sec, text)
  {
    if LongEnough(text) {
      EnStepComplete(ids, svc, p, sec, text, pr, s, l);
      var r1 := EnStep(ids, svc, p, sec, text, pr);
      if r1.Ok? {
        JaStepComplete(ids, svc, p, sec, text, r1.value, s, l);
      }
    }
  }

  lemma {:induction false} SaveFromHas(ids: set<PointId>, svc: Services, p: Paper, sections: map<Section, string>,
                                       i: nat, pr: Progress, s: Section, l: Lang)
    requires i <= |Sections| && AllSections(sections)
    ensures var r := SaveFrom(ids, svc, p, sections, i, pr);
            r.Ok? ==> (Has(r.value.points, s, l) <==>
                         Has(pr.points, s, l) || (Position(s) >= i && Wanted(ids, svc, p.pmid, s, sections[s], l)))
    decreases |Sections| - i
  {
    if i < |Sections| {
      var sec := Sections[i];
      var text := sections[sec];
      assert Position(sec) == i;
      SectionStepComplete(ids, svc, p, sec, text, pr, s, l);
      var r1 := SectionStep(ids, svc, p, sec, text, pr);
      if r1.Ok? {
        SaveFromHas(ids, svc, p, sections, i + 1, r1.value, s, l);
        if Position(s) == i {
          SectionsComplete();
          assert Sections[Position(s)] == s;
        }
      }
    } else {
      assert Position(s) < |Sections|;
    }
  }

  lemma {:induction false} SaveFromSkipped(ids: set<PointId>, svc: Services, p: Paper, sections: map<Section, string>,
                                           i: nat, pr: Progress)
    requires i <= |Sections| && AllSections(sections)
    ensures var r := SaveFrom(ids, svc, p, sections, i, pr);
            r.Ok? ==> r.value.skipped == pr.skipped + StoredFrom(ids, p.pmid, sections, i)
    decreases |Sections| - i
  {
    if i < |Sections| {
      var sec := Sections[i];
      var text := sections[sec];
      SectionStepComplete(ids, svc, p, sec, text, pr, sec, En);
      var r1 := SectionStep(ids, svc, p, sec, text, pr);
      if r1.Ok? {
        SaveFromSkipped(ids, svc, p, sections, i + 1, r1.value);
      }
    }
  }

  /** `save_paper` is complete as well as sound: for every section and
      language, a successful run adds that chunk exactly when the section is
      long enough, its id is not stored and, for Japanese, the translation is
      non-empty; `skipped` counts the stored chunks of the long sections. */
  lemma PlanComplete(ids: set<PointId>, svc: Services, item: PaperItem, sec: Section, l: Lang)
    requires PmidFrom(item.pmid, item.url) != ""
    ensures var pmid := PmidFrom(item.pmid, item.url);
            var sections := Merged(BaseSections(item.summary), Fulltext(svc, svc.pmcidOf(pmid)));
            var r := Plan(ids, svc, item);
            r.Ok? ==>
              && ((exists j :: 0 <= j < |r.value.points| && r.value.points[j].section == sec && r.value.points[j].lang == l)
                  <==> Wanted(ids, svc, pmid, sec, sections[sec], l))
              && r.value.skipped == StoredFrom(ids, pmid, sections, 0)
  {
    var pmid := PmidFrom(item.pmid, item.url);
    var pmcid := svc.pmcidOf(pmid);
    var ft := Fulltext(svc, pmcid);
    var p := Paper(pmid, pmcid, item.title, item.url, ft.Some?);
    var sections := Merged(BaseSections(item.summary), ft);
    SaveFromHas(ids, svc, p, sections, 0, Start, sec, l);
    SaveFromSkipped(ids, svc, p, sections, 0, Start);
    var r := Plan(ids, svc, item);
    if r.Ok? {
      HasIff(r.value.points, sec, l);
    }
  }

  /** `upsert`: every point is stored under its id, later ones winning. */
  function Upsert(m: map<PointId, Point>, ps: seq<Point>): (r: map<PointId, Point>)
    ensures forall j :: 0 <= j < |ps| ==> ps[j].id in r
    ensures forall id :: id in m ==> id in r
    decreases |ps|
  {
    if ps == [] then m else Upsert(m[ps[0].id := ps[0]], ps[1..])
  }

  /** Upserting points with distinct new ids adds exactly that many entries. */
  lemma {:induction false} UpsertSize(m: map<PointId, Point>, ps: seq<Point>)
    requires forall j :: 0 <= j < |ps| ==> ps[j].id !in m
    requires forall j, k :: 0 <= j < k < |ps| ==> ps[j].id != ps[k].id
    ensures |Upsert(m, ps)| == |m| + |ps|
    decreases |ps|
  {
    if ps != [] {
      var m1 := m[ps[0].id := ps[0]];
      assert m1.Keys == m.Keys + {ps[0].id};
      forall j | 0 <= j < |ps[1..]|
        ensures ps[1..][j].id !in m1
      {
        assert ps[1..][j] == ps[j + 1];
      }
      UpsertSize(m1, ps[1..]);
    }
  }

  datatype Stats = Stats(saved: nat, skipped: nat)

  /** The Qdrant collection `raiden-main`, by point id. */
  class VectorStore {
    var points: map<PointId, Point>

    constructor(initial: map<PointId, Point>)
      ensures points == initial
    {
      points := initial;
    }

    /** `check_exists` when the retrieve call succeeds: whether the chunk's id
        is stored. The source answers false when the lookup raises, so a failed
        lookup has an already stored chunk embedded and counted again; that
        path is not modelled. */
    function Exists(pmid: string, sec: Section, lang: Lang): (r: bool)
      reads this
      ensures r <==> PointIdOf(pmid, sec, lang) in points
    {
      PointIdOf(pmid, sec, lang) in points
    }

    /** The full-text override loop of `save_paper`. */
    static method MergeFulltext(summary: string, fulltext: Option<map<Section, string>>)
      returns (sections: map<Section, string>)
      ensures sections == Merged(BaseSections(summary), fulltext)
    {
      var base := BaseSections(summary);
      sections := base;
      if fulltext.Some? {
        for i := 0 to |Sections|
          invariant sections == OverriddenUpTo(base, fulltext.value, i)
        {
          var key := Sections[i];
          if key in fulltext.value && fulltext.value[key] != "" {
            sections := sections[key := fulltext.value[key]];
          }
        }
        OverriddenUpToIs(base, fulltext.value, |Sections|);
        assert Sections[..|Sections|] == Sections;
        SectionsComplete();
      }
      SameSections(sections, Merged(base, fulltext));
    }

    /** The English half of one pass of the section loop of `save_paper`. */
    method EnglishHalf(svc: Services, paper: Paper, section: Section, text: string, pr: Progress)
      returns (res: Result<Progress, string>)
      ensures res == EnStep(points.Keys, svc, paper, section, text, pr)
    {
      if !Exists(paper.pmid, section, En) {
        var vector := Embed(svc, EnText(paper, section, text));
        if vector.Err? {
          return Err(vector.error);
        }
        var point := EnPoint(paper, section, text, vector.value);
        res := Ok(pr.(points := pr.points + [point], saved := pr.saved + 1));
      } else {
        res := Ok(pr.(skipped := pr.skipped + 1));
      }
    }

    /** Embeds a translated section and adds its Japanese chunk. */
    static method AddJapanese(svc: Services, paper: Paper, section: Section, textJa: string, pr: Progress)
      returns (res: Result<Progress, string>)
      ensures res == JaEmbed(svc, paper, section, textJa, pr)
    {
      var titleJa := CachedTitle(svc, paper, pr.titleJa);
      var vector := Embed(svc, JaText(DisplayTitle(paper, titleJa), section, textJa));
      if vector.Err? {
        return Err(vector.error);
      }
      var point := JaPoint(paper, section, titleJa, textJa, vector.value);
      res := Ok(Progress(pr.points + [point], pr.saved + 1, pr.skipped, Some(titleJa)));
    }

    /** The Japanese half of one pass of the section loop of `save_paper`. */
    method JapaneseHalf(svc: Services, paper: Paper, section: Section, text: string, pr: Progress)
      returns (res: Result<Progress, string>)
      ensures res == JaStep(points.Keys, svc, paper, section, text, pr)
    {
      if !Exists(paper.pmid, section, Ja) {
        var textJa := Translate(svc, text, SectionOf(section));
        if textJa == "" {
          return Ok(pr);
        }
        res := AddJapanese(svc, paper, section, textJa, pr);
      } else {
        res := Ok(pr.(skipped := pr.skipped + 1));
      }
    }

    /** The section loop of `save_paper`, in the dict's order. */
    method SaveSections(svc: Services, paper: Paper, sections: map<Section, string>)
      returns (res: Result<Progress, string>)
      requires AllSections(sections)
      ensures res == SaveFrom(points.Keys, svc, paper, sections, 0, Start)
    {
      var pr := Start;
      for i := 0 to |Sections|
        invariant SaveFrom(points.Keys, svc, paper, sections, 0, Start) ==
                  SaveFrom(points.Keys, svc, paper, sections, i, pr)
      {
        var section := Sections[i];
        var text := sections[section];
        if LongEnough(text) {
          var en := EnglishHalf(svc, paper, section, text, pr);
          if en.Err? {
            return Err(en.error);
          }
          var ja := JapaneseHalf(svc, paper, section, text, en.value);
          if ja.Err? {
            return Err(ja.error);
          }
          pr := ja.value;
        }
      }
      res := Ok(pr);
    }

    /** `save_paper`. The store is written once, at the end, and only when
        there are points; an embedding error leaves it as it was. */
    method SavePaper(item: PaperItem, svc: Services) returns (r: Result<Stats, string>)
      modifies this
      ensures r.Err? <==> Plan(old(points).Keys, svc, item).Err?
      ensures r.Err? ==> r.error == Plan(old(points).Keys, svc, item).error
      ensures r.Ok? ==> r.value == Stats(Plan(old(points).Keys, svc, item).value.saved,
                                         Plan(old(points).Keys, svc, item).value.skipped)
      ensures r.Ok? ==> points == Upsert(old(points), Plan(old(points).Keys, svc, item).value.points)
      ensures r.Err? ==> points == old(points)
      ensures r.Ok? ==> |points| == |old(points)| + r.value.saved
      ensures PmidFrom(item.pmid, item.url) == "" ==> r == Ok(Stats(0, 0)) && points == old(points)
    {
      ghost var ids := points.Keys;
      var pmid := PmidFrom(item.pmid, item.url);
      if pmid == "" {
        return Ok(Stats(0, 0));
      }
      var pmcid := svc.pmcidOf(pmid);
      var fulltext := Fulltext(svc, pmcid);
      var sections := MergeFulltext(item.summary, fulltext);
      var paper := Paper(pmid, pmcid, item.title, item.url, fulltext.Some?);
      var run := SaveSections(svc, paper, sections);
      if run.Err? {
        return Err(run.error);
      }
      var pr := run.value;
      PlanPoints(ids, svc, item);
      if pr.points != [] {
        points := Upsert(points, pr.points);
      }
      UpsertSize(old(points), pr.points);
      r := Ok(Stats(pr.saved, pr.skipped));
    }
  }

  /** Only items whose `source` is "pubmed" are saved. */
  function PubmedOnly(items: seq<PaperItem>): (r: seq<PaperItem>)
    ensures |r| <= |items|
    ensures forall x :: x in r <==> x in items && x.source == "pubmed"
  {
    if items == [] then []
    else (if items[0].source == "pubmed" then [items[0]] else []) + PubmedOnly(items[1..])
  }

  /** The filter keeps the items in their order: filtering a concatenation is
      the concatenation of the filtered parts. */
  lemma {:induction false} PubmedOnlyAppend(a: seq<PaperItem>, b: seq<PaperItem>)
    ensures PubmedOnly(a + b) == PubmedOnly(a) + PubmedOnly(b)
  {
    if a != [] {
      assert (a + b)[0] == a[0];
      assert (a + b)[1..] == a[1..] + b;
      PubmedOnlyAppend(a[1..], b);
    } else {
      assert a + b == b;
    }
  }

  /** How one paper is saved against a store holding the given ids. */
  type Planner = (set<PointId>, PaperItem) -> Result<Progress, string>

  /** `save_paper` as a planner. */
  function PlanOf(svc: Services): Planner {
    (ids, item) => Plan(ids, svc, item)
  }

  /** The store and the outcome after saving `items` in turn, with the
      counters so far: each paper's plan runs against the store the earlier
      papers left, its points are upserted and its counters added; the first
      error ends the run with the store as it is then. */
  datatype Run = Run(points: map<PointId, Point>, result: Result<Stats, string>)

  function SaveAll(m: map<PointId, Point>, plan: Planner, items: seq<PaperItem>, saved: nat, skipped: nat): Run
    decreases |items|
  {
    if items == [] then Run(m, Ok(Stats(saved, skipped)))
    else
      var r := plan(m.Keys, items[0]);
      if r.Err? then Run(m, Err(r.error))
      else SaveAll(Upsert(m, r.value.points), plan, items[1..], saved + r.value.saved, skipped + r.value.skipped)
  }

  /** A plan that counts one save per point, each with a distinct id not yet stored. */
  predicate AddsFresh(ids: set<PointId>, r: Result<Progress, string>) {
    r.Ok? ==>
      && r.value.saved == |r.value.points|
      && (forall j, k :: 0 <= j < k < |r.value.points| ==> r.value.points[j].id != r.value.points[k].id)
      && (forall j :: 0 <= j < |r.value.points| ==> r.value.points[j].id !in ids)
  }

  lemma SavePaperAddsFresh(svc: Services)
    ensures forall ids, item :: AddsFresh(ids, PlanOf(svc)(ids, item))
  {
    forall ids, item
      ensures AddsFresh(ids, PlanOf(svc)(ids, item))
    {
      PlanPoints(ids, svc, item);
    }
  }

  /** A run of such plans only adds points: every stored id stays, and a
      successful run adds one entry per point it counts as saved. */
  lemma {:induction false} SaveAllGrows(m: map<PointId, Point>, plan: Planner, items: seq<PaperItem>, saved: nat, skipped: nat)
    requires forall ids, item :: AddsFresh(ids, plan(ids, item))
    ensures var run := SaveAll(m, plan, items, saved, skipped);
            && m.Keys <= run.points.Keys
            && (run.result.Ok? ==> run.result.value.saved >= saved &&
                                   |run.points| == |m| + (run.result.value.saved - saved))
    decreases |items|
  {
    if items != [] {
      var r := plan(m.Keys, items[0]);
      if r.Ok? {
        assert AddsFresh(m.Keys, r);
        UpsertSize(m, r.value.points);
        SaveAllGrows(Upsert(m, r.value.points), plan, items[1..], saved + r.value.saved, skipped + r.value.skipped);
      }
    }
  }

  /** The run from the `i`-th item on, one paper further: `stats` and `m1`
      are that paper's outcome and the store after it. */
  lemma SaveAllNext(m: map<PointId, Point>, m1: map<PointId, Point>, plan: Planner, items: seq<PaperItem>, i: nat,
                    saved: nat, skipped: nat, stats: Result<Stats, string>)
    requires i < |items|
    requires var r := plan(m.Keys, items[i]);
             && (stats.Err? <==> r.Err?)
             && (stats.Err? ==> stats.error == r.error && m1 == m)
             && (stats.Ok? ==> stats.value == Stats(r.value.saved, r.value.skipped) && m1 == Upsert(m, r.value.points))
    ensures stats.Err? ==> SaveAll(m, plan, items[i..], saved, skipped) == Run(m1, Err(stats.error))
    ensures stats.Ok? ==> SaveAll(m, plan, items[i..], saved, skipped)
                          == SaveAll(m1, plan, items[i + 1..], saved + stats.value.saved, skipped + stats.value.skipped)
  {
    assert items[i..][0] == items[i] && items[i..][1..] == items[i + 1..];
  }

  /** The loop of `save_pubmed_items_to_qdrant`: `save_paper` on each item
      in turn, summing the counters, until an error ends it. */
  method SaveEach(store: VectorStore, items: seq<PaperItem>, svc: Services) returns (r: Result<Stats, string>)
    modifies store
    ensures store.points == SaveAll(old(store.points), PlanOf(svc), items, 0, 0).points
    ensures r == SaveAll(old(store.points), PlanOf(svc), items, 0, 0).result
  {
    ghost var plan := PlanOf(svc);
    ghost var expected := SaveAll(store.points, plan, items, 0, 0);
    var totalSaved: nat, totalSkipped: nat := 0, 0;
    for i := 0 to |items|
      invariant SaveAll(store.points, plan, items[i..], totalSaved, totalSkipped) == expected
    {
      ghost var before := store.points;
      var stats := store.SavePaper(items[i], svc);
      assert plan(before.Keys, items[i]) == Plan(before.Keys, svc, items[i]);
      SaveAllNext(before, store.points, plan, items, i, totalSaved, totalSkipped, stats);
      if stats.Err? {
        return Err(stats.error);
      }
      var saved, skipped := totalSaved + stats.value.saved, totalSkipped + stats.value.skipped;
      assert SaveAll(store.points, plan, items[i + 1..], saved, skipped) == expected;
      totalSaved, totalSkipped := saved, skipped;
    }
    r := Ok(Stats(totalSaved, totalSkipped));
  }

  /** `save_pubmed_items_to_qdrant`: the pubmed items in turn; the totals are
      the sums of the per-paper counters, and an error ends the run. */
  method SavePubmedItems(store: VectorStore, items: seq<PaperItem>, svc: Services)
    returns (r: Result<Stats, string>)
    modifies store
    ensures store.points == SaveAll(old(store.points), PlanOf(svc), PubmedOnly(items), 0, 0).points
    ensures r == SaveAll(old(store.points), PlanOf(svc), PubmedOnly(items), 0, 0).result
    ensures r.Ok? ==> |store.points| == |old(store.points)| + r.value.saved
    ensures old(store.points).Keys <= store.points.Keys
    ensures PubmedOnly(items) == [] ==> r == Ok(Stats(0, 0)) && store.points == old(store.points)
  {
    var pubmedItems := PubmedOnly(items);
    SavePaperAddsFresh(svc);
    SaveAllGrows(store.points, PlanOf(svc), pubmedItems, 0, 0);
    if pubmedItems == [] {
      return Ok(Stats(0, 0));
    }
    r := SaveEach(store, pubmedItems, svc);
  }
}
