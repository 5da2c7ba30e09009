/**
  The fixed category taxonomy, the category fallback applied to an untrusted
  suggestion, and the quote-number normaliser (app_v6_deploy.py).
 */
module Normalize {
  import opened Text

  /** Project ("engineering") categories. */
  const TypeEng: seq<string> := ["消防工程", "機電工程", "住戶宅修"]
  /** Maintenance categories. */
  const TypeMaint: seq<string> := ["場勘報價", "點交總檢", "緊急搶修", "定期保養", "設備巡檢", "耗材更換"]
  const AllTypes: seq<string> := TypeEng + TypeMaint

  /** The label text removed from a quote number, with and without its colon. */
  const QuoteLabel: string := "估價單號"
  const QuoteLabelColon: string := "估價單號:"

  /** The characters of `strip("-_#：: ")`. */
  const QuotePunct: set<char> := {'-', '_', '#', '：', ':', ' '}

  /** `s.replace("：", ":")`: the full-width colon folded to the ASCII one. */
  function FoldColon(s: string): (r: string)
    ensures '：' !in r
    ensures '：' !in s ==> r == s
  {
    var r := ReplaceChar(s, '：', ':');
    assert forall i :: 0 <= i < |r| ==> r[i] != '：';
    r
  }

  /** Folding adds no character other than the ASCII colon. */
  lemma FoldColonWithin(s: string)
    ensures forall c :: c in FoldColon(s) ==> c in s || c == ':'
  {
    var r := FoldColon(s);
    assert forall i :: 0 <= i < |r| ==> r[i] == ':' || r[i] == s[i];
  }

  /** `s.replace("估價單號:", "").replace("估價單號", "")`. */
  function DropLabels(s: string): string
  {
    RemoveAll(RemoveAll(s, QuoteLabelColon), QuoteLabel)
  }

  /** Removing the labels adds no character. */
  lemma DropLabelsWithin(s: string)
    ensures forall c :: c in DropLabels(s) ==> c in s
  {
    RemoveAllChars(s, QuoteLabelColon);
    RemoveAllChars(RemoveAll(s, QuoteLabelColon), QuoteLabel);
  }

  /**
    `_normalize_quote_no`: strip, fold the full-width colon, delete all
    whitespace, delete the label (first with, then without its colon, each in
    one left-to-right pass), trim punctuation at both ends, strip.
   */
  function NormalizeQuoteNo(s: string): (r: string)
    ensures NoSpace(r)
    ensures '：' !in r
    ensures r == [] || (r[0] !in QuotePunct && r[|r| - 1] !in QuotePunct)
  {
    var s2 := FoldColon(Strip(s));
    var s3 := RemoveSpaces(s2);
    var s5 := DropLabels(s3);
    var s6 := StripBy(s5, Chars(QuotePunct));
    CleanStages(s2, s3, s5, s6);
    StripNoSpaceEnds(s6);
    Strip(s6)
  }

  /** The last stages keep a text free of whitespace and of the full-width colon. */
  lemma CleanStages(s2: string, s3: string, s5: string, s6: string)
    requires '：' !in s2 && s3 == RemoveSpaces(s2)
    requires s5 == DropLabels(s3) && s6 == StripBy(s5, Chars(QuotePunct))
    ensures NoSpace(s6) && '：' !in s6
  {
    RemoveSpacesWithin(s2);
    DropLabelsWithin(s3);
    StripByWithin(s5, Chars(QuotePunct));
    forall c | c in s6 ensures !IsSpace(c) && c != '：' {
      assert c in s3;
    }
  }

  lemma FoldColonFixed(r: string)
    requires '：' !in r
    ensures FoldColon(r) == r
  {
  }

  lemma RemoveSpacesFixed(r: string)
    requires NoSpace(r)
    ensures RemoveSpaces(r) == r
  {
  }

  /** `DropLabels` leaves a string without the label untouched. */
  lemma DropLabelsAbsent(r: string)
    requires !Contains(r, QuoteLabel)
    ensures DropLabels(r) == r
  {
    AbsentExtension(r, QuoteLabel, QuoteLabelColon);
    RemoveAllAbsent(r, QuoteLabelColon);
    RemoveAllAbsent(r, QuoteLabel);
  }

  /** The fixed points of the normaliser: every normal form that does not contain the label. */
  lemma NormalFormFixed(r: string)
    requires NoSpace(r) && '：' !in r
    requires r == [] || (r[0] !in QuotePunct && r[|r| - 1] !in QuotePunct)
    requires !Contains(r, QuoteLabel)
    ensures NormalizeQuoteNo(r) == r
  {
    FirstStagesFixed(r);
    DropLabelsAbsent(r);
    LastStagesFixed(r);
    assert NormalizeQuoteNo(r) == Strip(StripBy(DropLabels(RemoveSpaces(FoldColon(Strip(r)))), Chars(QuotePunct)));
  }

  /** Strip, colon folding and whitespace removal leave a normal form unchanged. */
  lemma FirstStagesFixed(r: string)
    requires NoSpace(r) && '：' !in r
    ensures RemoveSpaces(FoldColon(Strip(r))) == r
  {
    if r != [] {
      assert r[0] in r && r[|r| - 1] in r;
    }
    StripNoSpaceEnds(r);
    FoldColonFixed(r);
    RemoveSpacesFixed(r);
  }

  /** The final punctuation trim and strip leave a normal form unchanged. */
  lemma LastStagesFixed(r: string)
    requires NoSpace(r)
    requires r == [] || (r[0] !in QuotePunct && r[|r| - 1] !in QuotePunct)
    ensures Strip(StripBy(r, Chars(QuotePunct))) == r
  {
    StripByUnchanged(r, Chars(QuotePunct));
    if r != [] {
      assert r[0] in r && r[|r| - 1] in r;
    }
    StripNoSpaceEnds(r);
  }

  /**
    A quote number whose normal form no longer contains the label is a fixed
    point: normalising it again gives the same text.
   */
  lemma NormalizeIdempotentWithoutLabel(s: string)
    requires !Contains(NormalizeQuoteNo(s), QuoteLabel)
    ensures NormalizeQuoteNo(NormalizeQuoteNo(s)) == NormalizeQuoteNo(s)
  {
    NormalFormFixed(NormalizeQuoteNo(s));
  }

  /**
    The normaliser is not idempotent in general: one pass of `replace` does
    not rescan, so a label split around another label survives the first pass.
   */
  lemma NormalizeNotIdempotent()
    ensures NormalizeQuoteNo("估價估價單號單號") == "估價單號"
    ensures NormalizeQuoteNo("估價單號") == ""
  {
    NormalizeSplitLabel();
    NormalizeLabel();
  }

  lemma NormalizeSplitLabel()
    ensures NormalizeQuoteNo("估價估價單號單號") == QuoteLabel
  {
    var x := "估價估價單號單號";
    SplitLabelStages();
    DropLabelsSplitLabel();
    LabelStripped();
    assert NormalizeQuoteNo(x) == Strip(StripBy(DropLabels(RemoveSpaces(FoldColon(Strip(x)))), Chars(QuotePunct)));
  }

  /** The first three stages leave the split-label text unchanged. */
  lemma SplitLabelStages()
    ensures RemoveSpaces(FoldColon(Strip("估價估價單號單號"))) == "估價估價單號單號"
  {
    var x := "估價估價單號單號";
    SplitLabelPlain();
    StripNoSpaceEnds(x);
    FoldColonFixed(x);
    RemoveSpacesFixed(x);
  }

  /** The label survives the final two stripping stages. */
  lemma LabelStripped()
    ensures Strip(StripBy(QuoteLabel, Chars(QuotePunct))) == QuoteLabel
  {
    PlainEndsStripped(QuoteLabel);
  }

  lemma PlainEndsStripped(y: string)
    requires y != [] && y[0] == '估' && y[|y| - 1] == '號'
    ensures Strip(StripBy(y, Chars(QuotePunct))) == y
  {
    StripByUnchanged(y, Chars(QuotePunct));
    StripNoSpaceEnds(y);
  }

  lemma NormalizeLabel()
    ensures NormalizeQuoteNo(QuoteLabel) == ""
  {
    LabelStages();
    DropLabelsLabel();
    assert NormalizeQuoteNo(QuoteLabel) == Strip(StripBy(DropLabels(RemoveSpaces(FoldColon(Strip(QuoteLabel)))), Chars(QuotePunct)));
  }

  /** The first three stages leave the bare label unchanged. */
  lemma LabelStages()
    ensures RemoveSpaces(FoldColon(Strip(QuoteLabel))) == QuoteLabel
  {
    LabelPlain();
    StripNoSpaceEnds(QuoteLabel);
    FoldColonFixed(QuoteLabel);
    RemoveSpacesFixed(QuoteLabel);
  }

  lemma LabelPlain()
    ensures NoSpace(QuoteLabel) && '：' !in QuoteLabel
  {
    assert forall c :: c in QuoteLabel ==> c == '估' || c == '價' || c == '單' || c == '號';
  }

  lemma SplitLabelPlain()
    ensures NoSpace("估價估價單號單號") && '：' !in "估價估價單號單號"
  {
    var x := "估價估價單號單號";
    assert x == QuoteLabel[..2] + QuoteLabel + QuoteLabel[2..];
    assert forall c :: c in x ==> c in QuoteLabel;
  }

  lemma DropLabelsSplitLabel()
    ensures DropLabels("估價估價單號單號") == QuoteLabel
  {
    SplitLabelColonPass();
    SplitLabelPass();
  }

  /** The split label holds no labelled-with-colon occurrence. */
  lemma SplitLabelColonPass()
    ensures RemoveAll("估價估價單號單號", QuoteLabelColon) == "估價估價單號單號"
  {
    var x := "估價估價單號單號";
    assert x[..5][2] != QuoteLabelColon[2];
    assert x[1..][..5][0] != QuoteLabelColon[0];
    assert x[2..][..5][4] != QuoteLabelColon[4];
    assert x[3..][..5][0] != QuoteLabelColon[0];
    assert x[4..] == "單號單號";
  }

  /** One pass removes the inner label and leaves the outer one. */
  lemma SplitLabelPass()
    ensures RemoveAll("估價估價單號單號", QuoteLabel) == QuoteLabel
  {
    var x := "估價估價單號單號";
    assert x[..4][2] != QuoteLabel[2];
    assert x[1..][..4][0] != QuoteLabel[0];
    assert x[2..][..4] == QuoteLabel;
    assert x[2..][4..] == "單號";
  }

  lemma DropLabelsLabel()
    ensures DropLabels(QuoteLabel) == ""
  {
    var y := QuoteLabel;
    assert RemoveAll(y, QuoteLabelColon) == y;
    assert y[..4] == QuoteLabel;
    assert y[4..] == "";
  }

  /**
    `normalize_category`: the stripped suggestion if it is in the taxonomy,
    otherwise the first maintenance category for a zero budget and the first
    project category for any other budget.
   */
  function NormalizeCategory(cat: string, budget: int): (r: string)
    ensures r in AllTypes
    ensures Strip(cat) in AllTypes ==> r == Strip(cat)
    ensures Strip(cat) !in AllTypes && budget == 0 ==> r == TypeMaint[0]
    ensures Strip(cat) !in AllTypes && budget != 0 ==> r == TypeEng[0]
  {
    var c := Strip(cat);
    if c in AllTypes then c
    else if budget == 0 then "場勘報價"
    else TypeEng[0]
  }

  /** Every category is its own strip. */
  lemma CategoriesAreStripped(t: string)
    requires t in AllTypes
    ensures Strip(t) == t
  {
    StripNoSpaceEnds(t);
  }

  /** Re-normalising a normalised category, under any budget, keeps it. */
  lemma NormalizeCategoryIdempotent(cat: string, budget: int, budget': int)
    ensures NormalizeCategory(NormalizeCategory(cat, budget), budget') == NormalizeCategory(cat, budget)
  {
    CategoriesAreStripped(NormalizeCategory(cat, budget));
  }
}
