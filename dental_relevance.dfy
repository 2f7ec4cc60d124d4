/** The keyword relevance test (`is_relevant`) and the title-based kind
    classifier (`classify_kind`) of the dental-news collector. */
module DentalRelevance {
  import opened Wrappers
  import opened Text

  const JaAllow: seq<string> := [
    "自家歯牙移植", "自家歯移植", "歯牙移植", "歯の移植", "歯の自家移植",
    "ドナーレプリカ", "レプリカ 手術", "移植窩", "移植窩形成", "cbct",
    "3d プリンタ", "デジタル レプリカ", "歯科", "口腔", "口腔外科"]

  /** Non-dental organs and clinic advertising. */
  const JaDeny: seq<string> := [
    "乳房インプラント", "インプラント医院", "おすすめ", "ランキング", "費用", "名医", "口コミ", "広告",
    "腎", "腎移植", "肝", "肝移植", "角膜", "骨移植", "皮膚移植", "臓器", "移植片"]

  const EnAllow: seq<string> := [
    "tooth autotransplantation", "autogenous tooth transplantation", "autotransplanted tooth",
    "tooth transplantation", "donor tooth replica", "recipient site", "alveolar socket",
    "cbct", "3d print", "3d-printed", "dental", "dentistry", "oral", "maxillofacial"]

  const EnDeny: seq<string> := [
    "kidney", "renal", "liver", "hepatic", "corneal", "bone graft", "skin graft", "organ",
    "allograft", "xenograft", "implant clinic", "best clinic", "cost", "pricing", "cosmetic",
    "whitening", "aligner", "ad"]

  const CaseTerms: seq<string> := ["症例", "case report", "clinical case"]
  const VideoTerms: seq<string> := ["動画", "video", "tutorial", "technique"]

  /** "ja" selects the Japanese lists, every other language the English ones. */
  function AllowTerms(lang: string): seq<string> {
    if lang == "ja" then JaAllow else EnAllow
  }

  function DenyTerms(lang: string): seq<string> {
    if lang == "ja" then JaDeny else EnDeny
  }

  /** `(d.lower() for d in terms)`. */
  function LowerAll(terms: seq<string>): (r: seq<string>)
    ensures |r| == |terms|
    ensures forall i :: 0 <= i < |terms| ==> r[i] == Lower(terms[i])
  {
    seq(|terms|, i requires 0 <= i < |terms| => Lower(terms[i]))
  }

  /** The text that is searched: `f"{title.lower()} {summary.lower()}"`. */
  function SearchText(title: Option<string>, summary: Option<string>): string {
    Lower(title.GetOr("")) + " " + Lower(summary.GetOr(""))
  }

  /** The test with its term lists as parameters. */
  function RelevantWith(title: Option<string>, summary: Option<string>, allow: seq<string>, deny: seq<string>): bool {
    if title.None? || title.value == "" then false
    else
      var text := SearchText(title, summary);
      if AnyIn(deny, text) then false
      else AnyIn(allow, text)
  }

  /** `is_relevant`: an empty title is never relevant; a deny term rules the item
      out whatever else it contains; otherwise one allow term is enough. */
  function IsRelevant(title: Option<string>, summary: Option<string>, lang: string): (r: bool)
    ensures (title.None? || title.value == "") ==> !r
  {
    RelevantWith(title, summary, LowerAll(AllowTerms(lang)), LowerAll(DenyTerms(lang)))
  }

  lemma DenyInTitleRejectsWith(title: string, summary: Option<string>, allow: seq<string>, deny: seq<string>, i: nat)
    requires i < |deny| && Contains(Lower(title), deny[i])
    ensures !RelevantWith(Some(title), summary, allow, deny)
  {
    var text := SearchText(Some(title), summary);
    ContainsInConcat(Lower(title), " " + Lower(summary.GetOr("")), deny[i]);
    assert text == Lower(title) + (" " + Lower(summary.GetOr("")));
    AnyInIff(deny, text);
  }

  lemma DenyInSummaryRejectsWith(title: Option<string>, summary: string, allow: seq<string>, deny: seq<string>, i: nat)
    requires i < |deny| && Contains(Lower(summary), deny[i])
    ensures !RelevantWith(title, Some(summary), allow, deny)
  {
    var text := SearchText(title, Some(summary));
    ContainsInConcat(Lower(title.GetOr("")) + " ", Lower(summary), deny[i]);
    AnyInIff(deny, text);
  }

  lemma AllowInTitleAcceptsWith(title: string, summary: Option<string>, allow: seq<string>, deny: seq<string>, i: nat)
    requires title != "" && i < |allow| && Contains(Lower(title), allow[i])
    requires forall j :: 0 <= j < |deny| ==> !Contains(SearchText(Some(title), summary), deny[j])
    ensures RelevantWith(Some(title), summary, allow, deny)
  {
    var text := SearchText(Some(title), summary);
    ContainsInConcat(Lower(title), " " + Lower(summary.GetOr("")), allow[i]);
    assert text == Lower(title) + (" " + Lower(summary.GetOr("")));
    AnyInIff(allow, text);
    AnyInIff(deny, text);
  }

  /** A deny term in the title rejects the item, whatever the summary and the
      allow terms say. */
  lemma DenyInTitleRejects(title: string, summary: Option<string>, lang: string, i: nat)
    requires i < |DenyTerms(lang)|
    requires Contains(Lower(title), Lower(DenyTerms(lang)[i]))
    ensures !IsRelevant(Some(title), summary, lang)
  {
    DenyInTitleRejectsWith(title, summary, LowerAll(AllowTerms(lang)), LowerAll(DenyTerms(lang)), i);
  }

  /** A deny term in the summary rejects the item as well. */
  lemma DenyInSummaryRejects(title: Option<string>, summary: string, lang: string, i: nat)
    requires i < |DenyTerms(lang)|
    requires Contains(Lower(summary), Lower(DenyTerms(lang)[i]))
    ensures !IsRelevant(title, Some(summary), lang)
  {
    DenyInSummaryRejectsWith(title, summary, LowerAll(AllowTerms(lang)), LowerAll(DenyTerms(lang)), i);
  }

  /** An allow term in the title makes the item relevant unless a deny term
      occurs somewhere in the searched text. */
  lemma AllowInTitleAccepts(title: string, summary: Option<string>, lang: string, i: nat)
    requires title != "" && i < |AllowTerms(lang)|
    requires Contains(Lower(title), Lower(AllowTerms(lang)[i]))
    requires forall j :: 0 <= j < |DenyTerms(lang)| ==>
               !Contains(SearchText(Some(title), summary), Lower(DenyTerms(lang)[j]))
    ensures IsRelevant(Some(title), summary, lang)
  {
    var allow, deny := LowerAll(AllowTerms(lang)), LowerAll(DenyTerms(lang));
    assert allow[i] == Lower(AllowTerms(lang)[i]);
    forall j | 0 <= j < |deny|
      ensures !Contains(SearchText(Some(title), summary), deny[j])
    {
      assert deny[j] == Lower(DenyTerms(lang)[j]);
    }
    AllowInTitleAcceptsWith(title, summary, allow, deny, i);
  }

  /** The test with explicit lists, stated without the search order: a
      non-empty title, no deny term anywhere in the searched text, and some
      allow term in it (title or summary). */
  lemma RelevantWithIff(title: Option<string>, summary: Option<string>, allow: seq<string>, deny: seq<string>)
    ensures RelevantWith(title, summary, allow, deny) <==>
              && title.Some? && title.value != ""
              && (forall j :: 0 <= j < |deny| ==> !Contains(SearchText(title, summary), deny[j]))
              && (exists i :: 0 <= i < |allow| && Contains(SearchText(title, summary), allow[i]))
  {
    var text := SearchText(title, summary);
    AnyInIff(deny, text);
    AnyInIff(allow, text);
  }

  /** `is_relevant` exactly: relevant iff the title is non-empty, no
      lowercased deny term of the language's list occurs in
      `"title summary"`, and some lowercased allow term does. */
  lemma IsRelevantIff(title: Option<string>, summary: Option<string>, lang: string)
    ensures IsRelevant(title, summary, lang) <==>
              && title.Some? && title.value != ""
              && (forall j :: 0 <= j < |DenyTerms(lang)| ==> !Contains(SearchText(title, summary), Lower(DenyTerms(lang)[j])))
              && (exists i :: 0 <= i < |AllowTerms(lang)| && Contains(SearchText(title, summary), Lower(AllowTerms(lang)[i])))
  {
    var allow, deny := LowerAll(AllowTerms(lang)), LowerAll(DenyTerms(lang));
    var text := SearchText(title, summary);
    RelevantWithIff(title, summary, allow, deny);
    assert (forall j :: 0 <= j < |deny| ==> !Contains(text, deny[j])) <==>
           (forall j :: 0 <= j < |DenyTerms(lang)| ==> !Contains(text, Lower(DenyTerms(lang)[j])));
    if i :| 0 <= i < |AllowTerms(lang)| && Contains(text, Lower(AllowTerms(lang)[i])) {
      assert Contains(text, allow[i]);
    }
  }

  /** An allow term in the summary alone is enough, as for the title. */
  lemma AllowInSummaryAccepts(title: string, summary: string, lang: string, i: nat)
    requires title != "" && i < |AllowTerms(lang)|
    requires Contains(Lower(summary), Lower(AllowTerms(lang)[i]))
    requires forall j :: 0 <= j < |DenyTerms(lang)| ==>
               !Contains(SearchText(Some(title), Some(summary)), Lower(DenyTerms(lang)[j]))
    ensures IsRelevant(Some(title), Some(summary), lang)
  {
    ContainsInConcat(Lower(title) + " ", Lower(summary), Lower(AllowTerms(lang)[i]));
    IsRelevantIff(Some(title), Some(summary), lang);
  }

  /** The English deny term "ad" is matched as a substring, so every English
      title that contains the letters "ad" anywhere (for instance
      "Tooth autotransplantation in adolescents") is rejected. */
  lemma AdAnywhereRejects(front: string, back: string, summary: Option<string>)
    ensures !IsRelevant(Some(front + "ad" + back), summary, "en")
  {
    var title := front + "ad" + back;
    LowerAppend(front + "ad", back);
    LowerAppend(front, "ad");
    assert Lower("ad") == "ad";
    assert Contains("ad", "ad");
    ContainsInConcat(Lower(front), "ad", "ad");
    ContainsInConcat(Lower(front) + "ad", Lower(back), "ad");
    assert DenyTerms("en")[17] == "ad";
    DenyInTitleRejects(title, summary, "en", 17);
  }

  // ----- deny terms as whole words -----

  predicate IsLetter(c: char) {
    ('a' <= c <= 'z') || ('A' <= c <= 'Z')
  }

  /** `w` occurs in `text` at `i` with no letter right before or right after it. */
  predicate WordAt(text: string, w: string, i: int) {
    && 0 <= i && i + |w| <= |text| && text[i..i + |w|] == w
    && (i == 0 || !IsLetter(text[i - 1]))
    && (i + |w| == |text| || !IsLetter(text[i + |w|]))
  }

  predicate ContainsWord(text: string, w: string) {
    exists i :: 0 <= i <= |text| && WordAt(text, w, i)
  }

  /** How a deny term is looked for: as a whole word in English text, as a
      substring in Japanese text, which has no spaces between words. */
  predicate DenyHit(text: string, term: string, lang: string) {
    if lang == "ja" then Contains(text, term) else ContainsWord(text, term)
  }

  /** `is_relevant` as its deny list is evidently meant: "ad" (advertising),
      "organ" and "renal" reject an English item only as words of their own,
      not inside "head", "organization" or "adrenal". */
  function RelevantByWords(title: Option<string>, summary: Option<string>, lang: string): (r: bool)
    ensures r <==>
              && title.Some? && title.value != ""
              && (forall j :: 0 <= j < |DenyTerms(lang)| ==> !DenyHit(SearchText(title, summary), Lower(DenyTerms(lang)[j]), lang))
              && (exists i :: 0 <= i < |AllowTerms(lang)| && Contains(SearchText(title, summary), Lower(AllowTerms(lang)[i])))
  {
    if title.None? || title.value == "" then false
    else
      var text := SearchText(title, summary);
      var deny := LowerAll(DenyTerms(lang));
      var allow := LowerAll(AllowTerms(lang));
      AnyInIff(allow, text);
      assert (exists i :: 0 <= i < |AllowTerms(lang)| && Contains(text, Lower(AllowTerms(lang)[i]))) ==> AnyIn(allow, text);
      if exists j :: 0 <= j < |deny| && DenyHit(text, deny[j], lang) then false
      else AnyIn(allow, text)
  }

  /** For Japanese items the corrected test is the test as written. */
  lemma ByWordsAgreesInJapanese(title: Option<string>, summary: Option<string>)
    ensures RelevantByWords(title, summary, "ja") == IsRelevant(title, summary, "ja")
  {
    IsRelevantIff(title, summary, "ja");
  }

  lemma LowerKeepsNonLetter(c: char)
    requires !IsLetter(c)
    ensures LowerChar(c) == c
  {
  }

  /** "ad" standing as a word of its own still rejects an English item. */
  lemma AdWordRejects(front: string, back: string, summary: Option<string>)
    requires front == [] || !IsLetter(front[|front| - 1])
    requires back == [] || !IsLetter(back[0])
    ensures !RelevantByWords(Some(front + "ad" + back), summary, "en")
  {
    var title := front + "ad" + back;
    var text := SearchText(Some(title), summary);
    LowerAppend(front + "ad", back);
    LowerAppend(front, "ad");
    assert Lower("ad") == "ad";
    var i := |front|;
    assert text[i..i + 2] == "ad";
    if front != [] {
      LowerKeepsNonLetter(front[|front| - 1]);
      assert text[i - 1] == front[|front| - 1];
    }
    if back != [] {
      LowerKeepsNonLetter(back[0]);
      assert text[i + 2] == back[0];
    } else {
      assert text[i + 2] == ' ';
    }
    assert WordAt(text, "ad", i);
    assert Lower(DenyTerms("en")[17]) == "ad";
    assert DenyHit(text, Lower(DenyTerms("en")[17]), "en");
  }

  /** A whole-word match is a match: the corrected test only accepts more. */
  lemma ContainsWordContains(text: string, w: string)
    ensures ContainsWord(text, w) ==> Contains(text, w)
  {
    if ContainsWord(text, w) {
      var i :| 0 <= i <= |text| && WordAt(text, w, i);
      assert OccursAt(text, w, i);
      ContainsIffOccurs(text, w);
    }
  }

  /** Every item `is_relevant` keeps, the corrected test keeps too. */
  lemma RelevantThenByWords(title: Option<string>, summary: Option<string>, lang: string)
    ensures IsRelevant(title, summary, lang) ==> RelevantByWords(title, summary, lang)
  {
    if IsRelevant(title, summary, lang) {
      IsRelevantIff(title, summary, lang);
      var text := SearchText(title, summary);
      forall j | 0 <= j < |DenyTerms(lang)|
        ensures !DenyHit(text, Lower(DenyTerms(lang)[j]), lang)
      {
        ContainsWordContains(text, Lower(DenyTerms(lang)[j]));
      }
    }
  }

  /** A word match seen through its first two characters and its edges. */
  lemma WordAtEdges(text: string, w: string, i: int)
    requires WordAt(text, w, i) && |w| >= 2
    ensures text[i] == w[0] && text[i + 1] == w[1]
    ensures i == 0 || !IsLetter(text[i - 1])
    ensures |w| == 2 && i + 2 < |text| ==> !IsLetter(text[i + 2])
  {
    assert text[i..i + |w|][0] == text[i] && text[i..i + |w|][1] == text[i + 1];
  }

  /** The searched text of the title "Tooth autotransplantation in adolescents"
      with no summary. */
  const AdolescentsText: string := "tooth autotransplantation in adolescents "

  /** Where its words start and what they start with. */
  predicate AdolescentsShape(text: string) {
    && |text| == 41
    && (forall k :: 0 <= k < |text| && !IsLetter(text[k]) ==> k == 5 || k == 25 || k == 28 || k == 40)
    && text[0] == 't' && text[1] == 'o' && text[6] == 'a' && text[7] == 'u'
    && text[26] == 'i' && text[27] == 'n' && text[29] == 'a' && text[30] == 'd' && text[31] == 'o'
  }

  lemma AdolescentsTextShape()
    ensures AdolescentsShape(AdolescentsText)
  {
    AdolescentsSpaces();
    var text := AdolescentsText;
    assert text[0] == 't';
    assert text[1] == 'o';
    assert text[6] == 'a';
    assert text[7] == 'u';
    assert text[26] == 'i';
    assert text[27] == 'n';
    assert text[29] == 'a';
    assert text[30] == 'd';
    assert text[31] == 'o';
  }

  lemma AdolescentsSpaces()
    ensures forall k :: 0 <= k < |AdolescentsText| && !IsLetter(AdolescentsText[k]) ==> k == 5 || k == 25 || k == 28 || k == 40
  {
  }

  /** In a text of that shape the words start "to", "au", "in" and "ado", so
      a term starting otherwise, or "ad" alone, is not a word of it. */
  lemma NoWordInAdolescents(text: string, w: string)
    requires AdolescentsShape(text)
    requires |w| >= 2
    requires !(w[0] == 't' && w[1] == 'o') && !(w[0] == 'a' && w[1] == 'u') && !(w[0] == 'i' && w[1] == 'n')
    requires w[0] == 'a' && w[1] == 'd' ==> |w| == 2
    ensures !ContainsWord(text, w)
  {
    forall i | 0 <= i <= |text|
      ensures !WordAt(text, w, i)
    {
      if WordAt(text, w, i) {
        WordAtEdges(text, w, i);
      }
    }
  }

  const AdolescentsTitle: string := "Tooth autotransplantation in adolescents"

  lemma AdolescentsLowerTitle()
    ensures |Lower(AdolescentsTitle)| == 40
    ensures forall k :: 0 <= k < 40 ==> Lower(AdolescentsTitle)[k] == AdolescentsText[k]
  {
  }

  lemma AdolescentsSearchText()
    ensures SearchText(Some(AdolescentsTitle), None) == AdolescentsText
  {
    AdolescentsLowerTitle();
    assert Lower("") == "";
    assert AdolescentsText[40] == ' ';
  }

  /** "tooth autotransplantation", the first English allow term, opens the text. */
  lemma AdolescentsAllowed()
    ensures Contains(AdolescentsText, Lower(AllowTerms("en")[0]))
  {
    var allow := Lower(AllowTerms("en")[0]);
    assert allow == "tooth autotransplantation";
    assert OccursAt(AdolescentsText, allow, 0);
    ContainsIffOccurs(AdolescentsText, allow);
  }

  /** No English deny term is a word of the text. */
  lemma AdolescentsNotDenied()
    ensures forall j :: 0 <= j < |DenyTerms("en")| ==> !DenyHit(AdolescentsText, Lower(DenyTerms("en")[j]), "en")
  {
    AdolescentsTextShape();
    forall j | 0 <= j < |DenyTerms("en")|
      ensures !DenyHit(AdolescentsText, Lower(DenyTerms("en")[j]), "en")
    {
      var w := Lower(DenyTerms("en")[j]);
      assert w[0] == LowerChar(EnDeny[j][0]) && w[1] == LowerChar(EnDeny[j][1]);
      NoWordInAdolescents(AdolescentsText, w);
    }
  }

  /** The title that `AdAnywhereRejects` shows the substring test rejects is
      relevant under the corrected test. */
  lemma AdolescentsRelevantByWords()
    ensures !IsRelevant(Some(AdolescentsTitle), None, "en")
    ensures RelevantByWords(Some(AdolescentsTitle), None, "en")
  {
    assert "Tooth autotransplantation in adolescents" == "Tooth autotransplantation in " + "ad" + "olescents";
    AdAnywhereRejects("Tooth autotransplantation in ", "olescents", None);
    AdolescentsSearchText();
    AdolescentsAllowed();
    AdolescentsNotDenied();
  }

  /** `classify_kind`: "case" when the lower-cased title contains a case
      term, else "video" when it contains a video term, else "research". */
  function ClassifyKind(title: string): (r: string)
    ensures r == "case" || r == "video" || r == "research"
    ensures r == "case" <==> exists i :: 0 <= i < |CaseTerms| && Contains(Lower(title), CaseTerms[i])
    ensures r == "video" <==> (forall i :: 0 <= i < |CaseTerms| ==> !Contains(Lower(title), CaseTerms[i]))
                              && exists i :: 0 <= i < |VideoTerms| && Contains(Lower(title), VideoTerms[i])
  {
    AnyInIff(CaseTerms, Lower(title));
    AnyInIff(VideoTerms, Lower(title));
    var t := Lower(title);
    if AnyIn(CaseTerms, t) then "case"
    else if AnyIn(VideoTerms, t) then "video"
    else "research"
  }
}
