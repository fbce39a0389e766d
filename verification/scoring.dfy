/** The scoring rules of the three levels and of the teacher rubric (game.js:130-148,
    167-188, 200-225, 265-272, 317-330). Every `Math.round` in them is applied to a ratio of
    small integers and is modelled exactly with `RoundDiv`. */
module Scoring {
  import opened Wrappers
  import opened Text
  import opened Html

  /** `Math.round(n / d)` for a positive divisor: the integer nearest to n/d, halves rounded
      up (Math.round is floor(x + 1/2), and Dafny's `/` floors for a positive divisor). */
  function RoundDiv(n: int, d: int): (r: int)
    requires d > 0
    ensures 2 * d * r - d <= 2 * n < 2 * d * r + d
  {
    var q := (2 * n + d) / (2 * d);
    assert 2 * d * q <= 2 * n + d < 2 * d * q + 2 * d;
    q
  }

  /** A positive multiple k * x below k has x <= 0. */
  lemma MultipleBelow(k: int, x: int)
    requires k > 0 && k * x < k
    ensures x <= 0
  {
  }

  /** Rounding keeps the order of the values rounded. */
  lemma RoundDivMonotone(m: int, n: int, d: int)
    requires d > 0 && m <= n
    ensures RoundDiv(m, d) <= RoundDiv(n, d)
  {
    var a, b := RoundDiv(m, d), RoundDiv(n, d);
    var k := 2 * d;
    assert k * a - d <= 2 * m && 2 * n < k * b + d;
    assert k * (a - b) == k * a - k * b;
    MultipleBelow(k, a - b);
  }

  /** The value a ratio n/d rounds to is fixed by the bounds of RoundDiv. */
  lemma RoundDivUnique(n: int, d: int, r: int)
    requires d > 0
    requires 2 * d * r - d <= 2 * n < 2 * d * r + d
    ensures RoundDiv(n, d) == r
  {
    var q := RoundDiv(n, d);
    var k := 2 * d;
    assert k * q - d <= 2 * n < k * q + d;
    assert k * (q - r) == k * q - k * r;
    assert k * (r - q) == k * r - k * q;
    MultipleBelow(k, q - r);
    MultipleBelow(k, r - q);
  }

  // ---------------------------------------------------------------------------------------
  // Level 1: categorisation (game.js:130-148)

  /** `cards.every(c => attribute(c) === expected)`, scanned front to back. */
  predicate Every(attributes: seq<string>, expected: string)
    ensures Every(attributes, expected)
        <==> forall i :: 0 <= i < |attributes| ==> attributes[i] == expected
  {
    assert forall i :: 1 <= i < |attributes| ==> attributes[i] == attributes[1..][i - 1];
    attributes == [] || (attributes[0] == expected && Every(attributes[1..], expected))
  }

  /** A drop zone counts when it exists, holds at least one card, and every card in it carries
      the expected attribute; `box` is None when the page has no such element. */
  function ContainerCorrect(box: Option<seq<string>>, expected: string): (ok: bool)
    ensures ok <==> box.Some? && |box.value| > 0
                    && forall i :: 0 <= i < |box.value| ==> box.value[i] == expected
  {
    box.Some? && |box.value| > 0 && Every(box.value, expected)
  }

  /** The five drop zones as the Level 1 check reads them: the impact attributes of the poster
      cards in the three poster zones and the modal attributes of the cards in the two modal
      boxes. */
  datatype Level1Input = Level1Input(
    strong: Option<seq<string>>, medium: Option<seq<string>>, weak: Option<seq<string>>,
    mustNot: Option<seq<string>>, cannot: Option<seq<string>>)

  predicate PostersCorrect(z: Level1Input)
  {
    ContainerCorrect(z.strong, "strong") && ContainerCorrect(z.medium, "medium")
    && ContainerCorrect(z.weak, "weak")
  }

  /** Number of correct modal boxes, 0..2. */
  function ModalsCorrect(z: Level1Input): nat
  {
    (if ContainerCorrect(z.mustNot, "mustnot") then 1 else 0)
    + (if ContainerCorrect(z.cannot, "cannot") then 1 else 0)
  }

  /** Level 1 score: 3 when all three poster zones are correct (all or nothing), plus one per
      correct modal box. */
  function Level1Score(z: Level1Input): (score: nat)
    ensures score <= 5
    ensures score >= 3 <==> PostersCorrect(z)
    ensures score == 5 <==> PostersCorrect(z) && ModalsCorrect(z) == 2
  {
    (if PostersCorrect(z) then 3 else 0) + ModalsCorrect(z)
  }

  /** No drop zone holds a card (or the zone is missing from the page). */
  predicate AllEmpty(z: Level1Input)
  {
    (z.strong.None? || z.strong == Some([])) && (z.medium.None? || z.medium == Some([]))
    && (z.weak.None? || z.weak == Some([])) && (z.mustNot.None? || z.mustNot == Some([]))
    && (z.cannot.None? || z.cannot == Some([]))
  }

  /** Leaving every zone empty scores nothing: an empty zone is never correct. */
  lemma Level1Empty(z: Level1Input)
    requires AllEmpty(z)
    ensures Level1Score(z) == 0
  {
  }

  /** Correct posters with one modal box correct and the other empty give 3 + 1. */
  lemma Level1OneModalEmpty(z: Level1Input)
    requires PostersCorrect(z) && ContainerCorrect(z.mustNot, "mustnot")
    requires z.cannot == Some([])
    ensures Level1Score(z) == 4
  {
  }

  /** A single misplaced poster card in any of the three poster zones costs the whole poster
      part. */
  lemma {:induction false} Level1PosterAllOrNothing(z: Level1Input, box: Option<seq<string>>,
                                                    expected: string, i: nat)
    requires (box == z.strong && expected == "strong") || (box == z.medium && expected == "medium")
             || (box == z.weak && expected == "weak")
    requires box.Some? && i < |box.value| && box.value[i] != expected
    ensures Level1Score(z) == ModalsCorrect(z)
  {
    assert !ContainerCorrect(box, expected);
  }

  // ---------------------------------------------------------------------------------------
  // Level 2: reasons and politeness (game.js:167-188)

  /** The reasons that earn points. */
  const Required: seq<string> := ["safety", "clarity", "compliance"]

  /** `chosen.filter(c => required.includes(c)).length` */
  function Matches(chosen: seq<string>): (m: nat)
    ensures m <= |chosen|
  {
    if chosen == [] then 0
    else (if chosen[0] in Required then 1 else 0) + Matches(chosen[1..])
  }

  /** Every chosen reason counts exactly when all of them are required ones, and none counts
      exactly when none of them is. */
  lemma {:induction false} MatchesExtremes(chosen: seq<string>)
    ensures Matches(chosen) == |chosen| <==> forall i :: 0 <= i < |chosen| ==> chosen[i] in Required
    ensures Matches(chosen) == 0 <==> forall i :: 0 <= i < |chosen| ==> chosen[i] !in Required
  {
    if chosen != [] {
      MatchesExtremes(chosen[1..]);
      assert forall i :: 1 <= i < |chosen| ==> chosen[i] == chosen[1..][i - 1];
    }
  }

  /** Counting matches distributes over concatenation: each chosen reason counts on its own,
      whatever is chosen beside it. */
  lemma {:induction false} MatchesAppend(a: seq<string>, b: seq<string>)
    ensures Matches(a + b) == Matches(a) + Matches(b)
  {
    if a == [] {
      assert a + b == b;
    } else {
      assert (a + b)[0] == a[0] && (a + b)[1..] == a[1..] + b;
      MatchesAppend(a[1..], b);
    }
  }

  /** A single chosen reason counts exactly when it is a required one. */
  lemma MatchesSingle(c: string)
    ensures Matches([c]) == (if c in Required then 1 else 0)
  {
    assert [c][1..] == [];
  }

  /** `Math.round((matches / 3) * 7)` */
  function MatchScore(matches: nat): int
  {
    RoundDiv(7 * matches, 3)
  }

  /** Zero to three matches give 0, 2, 5 and 7 points. */
  lemma MatchScoreTable()
    ensures MatchScore(0) == 0 && MatchScore(1) == 2 && MatchScore(2) == 5 && MatchScore(3) == 7
  {
    RoundDivUnique(0, 3, 0);
    RoundDivUnique(7, 3, 2);
    RoundDivUnique(14, 3, 5);
    RoundDivUnique(21, 3, 7);
  }

  /** `Math.round(((p - 1) / 9) * 3)` */
  function PolitenessScore(p: int): int
  {
    RoundDiv(3 * (p - 1), 9)
  }

  /** On the slider's range 1..10 the politeness part is 0..3, from 0 at 1 to 3 at 10, and it
      never decreases as the rating grows. */
  lemma PolitenessScoreRange(p: int, q: int)
    requires 1 <= p <= q <= 10
    ensures 0 <= PolitenessScore(p) <= PolitenessScore(q) <= 3
    ensures PolitenessScore(1) == 0 && PolitenessScore(10) == 3
  {
    RoundDivMonotone(3 * (p - 1), 3 * (q - 1), 9);
    RoundDivMonotone(0, 3 * (p - 1), 9);
    RoundDivMonotone(3 * (q - 1), 27, 9);
    RoundDivUnique(0, 9, 0);
    RoundDivUnique(27, 9, 3);
  }

  /** `Math.min(10, matchScore + politScore)`. */
  function Level2Score(chosen: seq<string>, politeness: int): (score: int)
    ensures score <= 10
  {
    var total := MatchScore(Matches(chosen)) + PolitenessScore(politeness);
    if total < 10 then total else 10
  }

  lemma MatchScoreMonotone(m: nat, n: nat)
    requires m <= n
    ensures MatchScore(m) <= MatchScore(n)
  {
    RoundDivMonotone(7 * m, 7 * n, 3);
  }

  /** Up to three matches and a rating in 1..10 make at most 7 + 3 points. */
  lemma Level2PartsBounded(m: nat, politeness: int)
    requires m <= 3 && 1 <= politeness <= 10
    ensures 0 <= MatchScore(m) <= 7 && 0 <= PolitenessScore(politeness) <= 3
  {
    assert 0 <= MatchScore(m) <= 7 by {
      MatchScoreMonotone(0, m);
      MatchScoreMonotone(m, 3);
      MatchScoreTable();
    }
    assert 0 <= PolitenessScore(politeness) <= 3 by {
      PolitenessScoreRange(politeness, 10);
    }
  }

  /** With at most three chosen reasons and a rating in 1..10 the two parts add up to at most
      10, so the cap at 10 never changes the score. */
  lemma Level2CapInactive(chosen: seq<string>, politeness: int)
    requires |chosen| <= 3 && 1 <= politeness <= 10
    ensures Level2Score(chosen, politeness)
         == MatchScore(Matches(chosen)) + PolitenessScore(politeness)
    ensures 0 <= Level2Score(chosen, politeness) <= 10
  {
    Level2PartsBounded(Matches(chosen), politeness);
  }

  lemma Level2Top(chosen: seq<string>)
    requires Matches(chosen) == 3
    ensures Level2Score(chosen, 10) == 10
  {
    assert MatchScore(Matches(chosen)) == 7 by { MatchScoreTable(); }
    assert PolitenessScore(10) == 3 by { PolitenessScoreRange(1, 10); }
  }

  lemma Level2Bottom(chosen: seq<string>)
    requires Matches(chosen) == 0
    ensures Level2Score(chosen, 1) == 0
  {
    assert MatchScore(Matches(chosen)) == 0 by { MatchScoreTable(); }
    assert PolitenessScore(1) == 0 by { PolitenessScoreRange(1, 10); }
  }

  /** All three required reasons at the most polite rating give full marks; no required reason
      at the least polite rating gives nothing. */
  lemma Level2Extremes(chosen: seq<string>)
    requires |chosen| == 3
    ensures (forall i :: 0 <= i < 3 ==> chosen[i] in Required) ==> Level2Score(chosen, 10) == 10
    ensures (forall i :: 0 <= i < 3 ==> chosen[i] !in Required) ==> Level2Score(chosen, 1) == 0
  {
    MatchesExtremes(chosen);
    if forall i :: 0 <= i < 3 ==> chosen[i] in Required {
      Level2Top(chosen);
    }
    if forall i :: 0 <= i < 3 ==> chosen[i] !in Required {
      Level2Bottom(chosen);
    }
  }

  /** What the level 2 check handler ends in, as the file is written: line 185 reads the
      identifier `politen`, which nothing in the file declares. Unless the page happens to make
      a global of that name, the read throws a ReferenceError before any score is stored. */
  datatype CheckOutcome = ReferenceError | Scored(score: int)

  /** The level 2 check as written. When a global `politen` exists the read succeeds, and the
      value computed on line 185 is never read afterwards, so the stored score is the one of
      lines 187-188. */
  function Level2CheckAsWritten(chosen: seq<string>, politeness: int, politenDeclared: bool)
    : (o: CheckOutcome)
    ensures o.Scored? <==> politenDeclared
    ensures o.Scored? ==> o.score == Level2Score(chosen, politeness)
  {
    if politenDeclared then Scored(Level2Score(chosen, politeness)) else ReferenceError
  }

  /** The three required reasons at the most polite rating earn 10 points by the intended
      rule, yet the handler as written stores nothing. */
  lemma Level2AsWrittenLosesFullMarks()
    ensures Level2CheckAsWritten(Required, 10, false) == ReferenceError
    ensures Level2Score(Required, 10) == 10
  {
    MatchesExtremes(Required);
    Level2Extremes(Required);
  }

  /** `Number(politeness?.value || 6)`: the slider's value, or 6 when the page has no slider. */
  function SliderValue(slider: Option<int>): int
  {
    if slider.Some? then slider.value else 6
  }

  /** `window._politenessValue || Number(politeness?.value || 6)`: the submitted rating when
      one was submitted (and is not 0, which JavaScript treats as false), else the slider. */
  function PolitenessUsed(submitted: Option<int>, slider: Option<int>): (p: int)
    ensures submitted.Some? && submitted.value != 0 ==> p == submitted.value
    ensures submitted.None? || submitted.value == 0 ==> p == SliderValue(slider)
    ensures ((submitted.None? || 1 <= submitted.value <= 10)
             && (slider.None? || 1 <= slider.value <= 10)) ==> 1 <= p <= 10
  {
    if submitted.Some? && submitted.value != 0 then submitted.value else SliderValue(slider)
  }

  /** The three messages shown after a rating is submitted. */
  datatype Band = Impolite | ModeratelyPolite | VeryPolite

  function PolitenessBand(rating: int): (b: Band)
    ensures b == Impolite <==> rating <= 4
    ensures b == ModeratelyPolite <==> 4 < rating <= 7
    ensures b == VeryPolite <==> 7 < rating
  {
    if rating <= 4 then Impolite else if rating <= 7 then ModeratelyPolite else VeryPolite
  }

  function BandRank(b: Band): nat
  {
    match b
    case Impolite => 0
    case ModeratelyPolite => 1
    case VeryPolite => 2
  }

  /** A higher rating never lands in a less polite message. */
  lemma PolitenessBandMonotone(a: int, b: int)
    requires a <= b
    ensures BandRank(PolitenessBand(a)) <= BandRank(PolitenessBand(b))
  {
  }

  // ---------------------------------------------------------------------------------------
  // Level 3: poster creation (game.js:200-225)

  /** `qs(sel)?.value.trim() || ''`: the trimmed text, or "" when the input is missing. */
  function FieldText(field: Option<string>): string
  {
    if field.Some? then Trim(field.value) else ""
  }

  function FieldTexts(fields: seq<Option<string>>): (r: seq<string>)
    ensures |r| == |fields|
    ensures forall i :: 0 <= i < |fields| ==> r[i] == FieldText(fields[i])
  {
    if fields == [] then [] else [FieldText(fields[0])] + FieldTexts(fields[1..])
  }

  /** `texts.filter(Boolean)`: the non-empty texts, in order. */
  function NonEmpty(texts: seq<string>): (r: seq<string>)
    ensures |r| <= |texts|
    ensures r == [] <==> forall i :: 0 <= i < |texts| ==> texts[i] == ""
    ensures forall t :: t in r <==> t in texts && t != ""
  {
    if texts == [] then []
    else
      var rest := NonEmpty(texts[1..]);
      assert forall i :: 1 <= i < |texts| ==> texts[i] == texts[1..][i - 1];
      if texts[0] != "" then [texts[0]] + rest else rest
  }

  /** One text is kept exactly when it is not empty; with `NonEmptyAppend` this fixes the
      filtered list, contents and order, for every input. */
  lemma NonEmptySingle(t: string)
    ensures NonEmpty([t]) == (if t != "" then [t] else [])
  {
    assert [t][1..] == [];
  }

  /** `Math.min(10, Math.round((filled / 5) * 10))` */
  function Level3Score(filled: nat): int
  {
    var s := RoundDiv(filled * 10, 5);
    if s < 10 then s else 10
  }

  /** With five fields the score is exactly two points per filled field. */
  lemma Level3ScoreExact(filled: nat)
    requires filled <= 5
    ensures Level3Score(filled) == 2 * filled
  {
    RoundDivUnique(filled * 10, 5, 2 * filled);
  }

  /** One block of the poster preview, as far as the model keeps it: the escaped texts and
      their order. The markup around them (the paragraph styles, and the list tags that the
      separate `innerHTML +=` steps of game.js:219-221 leave as an empty list followed by the
      items) is not modelled. */
  datatype Block = Slogan(text: string) | Supporting(text: string) | RuleList(items: seq<string>)

  /** What pressing "generate" does: nothing entered at all is refused; a page without a
      preview area stops before scoring; otherwise the preview and the score. */
  datatype PosterOutcome = NothingEntered | NoPreviewArea | Generated(preview: seq<Block>, score: int)

  function EscapeAll(texts: seq<string>): (r: seq<string>)
    ensures |r| == |texts|
    ensures forall i :: 0 <= i < |texts| ==> r[i] == EscapeHtml(texts[i])
  {
    if texts == [] then [] else [EscapeHtml(texts[0])] + EscapeAll(texts[1..])
  }

  /** The preview for the trimmed opening line, supporting line and three rules. */
  function Preview(ob: string, pro: string, rules: seq<string>): seq<Block>
  {
    SloganPart(ob) + SupportingPart(pro) + RulesPart(rules)
  }

  /** The opening line's paragraph, when the line is not empty (game.js:215). */
  function SloganPart(ob: string): seq<Block>
  {
    if ob != "" then [Slogan(EscapeHtml(ob))] else []
  }

  /** The supporting line's paragraph, when the line is not empty (game.js:216). */
  function SupportingPart(pro: string): seq<Block>
  {
    if pro != "" then [Supporting(EscapeHtml(pro))] else []
  }

  /** The escaped texts of the non-empty rules, in order, when there is one (game.js:217-222). */
  function RulesPart(rules: seq<string>): seq<Block>
  {
    var kept := NonEmpty(rules);
    if kept != [] then [RuleList(EscapeAll(kept))] else []
  }

  /** The texts of the preview, in the order they are shown. */
  function PreviewTexts(blocks: seq<Block>): seq<string>
  {
    if blocks == [] then []
    else
      (match blocks[0]
       case Slogan(t) => [t]
       case Supporting(t) => [t]
       case RuleList(items) => items)
      + PreviewTexts(blocks[1..])
  }

  function UnescapeAll(texts: seq<string>): (r: seq<string>)
    ensures |r| == |texts|
    ensures forall i :: 0 <= i < |texts| ==> r[i] == Unescape(texts[i])
  {
    if texts == [] then [] else [Unescape(texts[0])] + UnescapeAll(texts[1..])
  }

  /** The generate-poster handler on the five raw inputs (opening line, supporting line, three
      rules; None for an input missing from the page) and whether the page has a preview
      area. */
  function GeneratePoster(raw: seq<Option<string>>, hasPreview: bool): (o: PosterOutcome)
    requires |raw| == 5
    ensures o.NothingEntered? <==> forall i :: 0 <= i < 5 ==> FieldText(raw[i]) == ""
    ensures o.NoPreviewArea? <==> !hasPreview && exists i :: 0 <= i < 5 && FieldText(raw[i]) != ""
    ensures o.Generated? ==> o.score == 2 * |NonEmpty(FieldTexts(raw))| && 2 <= o.score <= 10
  {
    var texts := FieldTexts(raw);
    var filled := NonEmpty(texts);
    if filled == [] then
      NothingEntered
    else if !hasPreview then
      NoPreviewArea
    else
      Level3ScoreExact(|filled|);
      Generated(Preview(texts[0], texts[1], texts[2..]), Level3Score(|filled|))
  }

  lemma {:induction false} PreviewTextsAppend(a: seq<Block>, b: seq<Block>)
    ensures PreviewTexts(a + b) == PreviewTexts(a) + PreviewTexts(b)
  {
    if a == [] {
      assert a + b == b;
    } else {
      assert (a + b)[0] == a[0] && (a + b)[1..] == a[1..] + b;
      PreviewTextsAppend(a[1..], b);
    }
  }

  lemma {:induction false} UnescapeAllEscapeAll(texts: seq<string>)
    ensures UnescapeAll(EscapeAll(texts)) == texts
  {
    if texts != [] {
      EscapeHtmlRoundTrip(texts[0]);
      UnescapeAllEscapeAll(texts[1..]);
    }
  }

  lemma {:induction false} NonEmptyAppend(a: seq<string>, b: seq<string>)
    ensures NonEmpty(a + b) == NonEmpty(a) + NonEmpty(b)
  {
    if a == [] {
      assert a + b == b;
    } else {
      assert (a + b)[0] == a[0] && (a + b)[1..] == a[1..] + b;
      NonEmptyAppend(a[1..], b);
    }
  }

  lemma {:induction false} EscapeAllAppend(a: seq<string>, b: seq<string>)
    ensures EscapeAll(a + b) == EscapeAll(a) + EscapeAll(b)
  {
    if a == [] {
      assert a + b == b;
    } else {
      assert (a + b)[0] == a[0] && (a + b)[1..] == a[1..] + b;
      EscapeAllAppend(a[1..], b);
    }
  }

  /** What the opening line or the supporting line adds to the preview: its escaped text,
      when it is not empty. */
  function Shown(t: string): seq<string>
  {
    EscapeAll(NonEmpty([t]))
  }

  lemma PreviewTextsSplit(ob: string, pro: string, rules: seq<string>)
    ensures PreviewTexts(Preview(ob, pro, rules)) == Shown(ob) + Shown(pro) + EscapeAll(NonEmpty(rules))
  {
    PreviewTextsAppend(SloganPart(ob) + SupportingPart(pro), RulesPart(rules));
    PreviewTextsAppend(SloganPart(ob), SupportingPart(pro));
    SloganShown(ob);
    SupportingShown(pro);
    RulesShown(rules);
  }

  lemma SloganShown(ob: string)
    ensures PreviewTexts(SloganPart(ob)) == Shown(ob)
  {
    NonEmptySingle(ob);
  }

  lemma SupportingShown(pro: string)
    ensures PreviewTexts(SupportingPart(pro)) == Shown(pro)
  {
    NonEmptySingle(pro);
  }

  lemma RulesShown(rules: seq<string>)
    ensures PreviewTexts(RulesPart(rules)) == EscapeAll(NonEmpty(rules))
  {
    var kept := NonEmpty(rules);
    if kept != [] {
      assert PreviewTexts(RulesPart(rules)) == EscapeAll(kept) + PreviewTexts([]);
    }
  }

  lemma FieldsSplit(ob: string, pro: string, rules: seq<string>)
    ensures EscapeAll(NonEmpty([ob, pro] + rules)) == Shown(ob) + Shown(pro) + EscapeAll(NonEmpty(rules))
  {
    assert [ob, pro] + rules == [ob] + [pro] + rules;
    NonEmptyAppend([ob] + [pro], rules);
    NonEmptyAppend([ob], [pro]);
    EscapeAllAppend(NonEmpty([ob]) + NonEmpty([pro]), NonEmpty(rules));
    EscapeAllAppend(NonEmpty([ob]), NonEmpty([pro]));
  }

  /** The texts of the preview are exactly the non-empty fields, each escaped, in the order
      opening line, supporting line, rules. */
  lemma PreviewTextsEscapedFields(ob: string, pro: string, rules: seq<string>)
    ensures PreviewTexts(Preview(ob, pro, rules)) == EscapeAll(NonEmpty([ob, pro] + rules))
  {
    PreviewTextsSplit(ob, pro, rules);
    FieldsSplit(ob, pro, rules);
  }

  /** The generated preview shows the filled fields, escaped, in order. */
  lemma GeneratedPreviewTexts(raw: seq<Option<string>>, hasPreview: bool)
    requires |raw| == 5
    requires GeneratePoster(raw, hasPreview).Generated?
    ensures PreviewTexts(GeneratePoster(raw, hasPreview).preview) == EscapeAll(NonEmpty(FieldTexts(raw)))
  {
    GeneratedPreviewOf(raw, hasPreview);
    PreviewOfTexts(FieldTexts(raw));
  }

  lemma GeneratedPreviewOf(raw: seq<Option<string>>, hasPreview: bool)
    requires |raw| == 5
    requires GeneratePoster(raw, hasPreview).Generated?
    ensures var texts := FieldTexts(raw);
            GeneratePoster(raw, hasPreview).preview == Preview(texts[0], texts[1], texts[2..])
  {
  }

  lemma PreviewOfTexts(texts: seq<string>)
    requires |texts| == 5
    ensures PreviewTexts(Preview(texts[0], texts[1], texts[2..])) == EscapeAll(NonEmpty(texts))
  {
    PreviewTextsEscapedFields(texts[0], texts[1], texts[2..]);
    assert texts == [texts[0], texts[1]] + texts[2..];
  }

  /** The preview shows each filled field exactly once, in order, and only in escaped form:
      unescaping the preview's texts gives back exactly the non-empty trimmed fields, and every
      one of them is safe to splice into markup. */
  lemma PosterPreviewFaithful(raw: seq<Option<string>>, hasPreview: bool)
    requires |raw| == 5
    requires GeneratePoster(raw, hasPreview).Generated?
    ensures UnescapeAll(PreviewTexts(GeneratePoster(raw, hasPreview).preview))
         == NonEmpty(FieldTexts(raw))
    ensures forall t :: t in PreviewTexts(GeneratePoster(raw, hasPreview).preview) ==> WellEscaped(t)
  {
    GeneratedPreviewTexts(raw, hasPreview);
    var filled := NonEmpty(FieldTexts(raw));
    UnescapeAllEscapeAll(filled);
    EscapeAllWellEscaped(filled);
  }

  lemma EscapeAllWellEscaped(texts: seq<string>)
    ensures forall t :: t in EscapeAll(texts) ==> WellEscaped(t)
  {
    var shown := EscapeAll(texts);
    forall t | t in shown ensures WellEscaped(t) {
      var i :| 0 <= i < |shown| && shown[i] == t;
      EscapeHtmlWellEscaped(texts[i]);
    }
  }

  // ---------------------------------------------------------------------------------------
  // Teacher rubric (game.js:265-272, 317-330)

  /** The JavaScript values a score holder can hold, as far as `getSafeNumber` tells them
      apart. */
  datatype JsValue = Num(n: int) | NaN | Undefined | Null

  /** `typeof v === 'number' ? v : (Number(v) || 0)`: a number, NaN included, is kept; anything
      else is converted, and a conversion that gives NaN or 0 gives 0. */
  function GetSafeNumber(v: JsValue): (r: JsValue)
    ensures r.Num? || r.NaN?
    ensures v.Num? ==> r == v
    ensures r.NaN? <==> v.NaN?
    ensures v.Undefined? || v.Null? ==> r == Num(0)
  {
    match v
    case Num(_) => v
    case NaN => v
    case Undefined => Num(0)  // Number(undefined) is NaN, and NaN || 0 is 0
    case Null => Num(0)       // Number(null) is 0
  }

  /** The rubric's level 1 entry: `Math.round((level1 / 5) * 10)`. */
  function RescaleLevel1(level1: int): (s1: int)
    ensures s1 == 2 * level1
  {
    RoundDivUnique(level1 * 10, 5, 2 * level1);
    RoundDiv(level1 * 10, 5)
  }

  /** The four numbers of the rubric: the three level entries and their total. */
  datatype Rubric = Rubric(s1: int, s2: int, s3: int, total: int)

  /** Level 1 (out of 5) is rescaled to 10 once, here; levels 2 and 3 are taken as they are. */
  function BuildRubric(level1: int, level2: int, level3: int): (r: Rubric)
    ensures r.s1 == 2 * level1 && r.s2 == level2 && r.s3 == level3
    ensures r.total == r.s1 + r.s2 + r.s3
    ensures 0 <= level1 <= 5 && 0 <= level2 <= 10 && 0 <= level3 <= 10 ==>
              0 <= r.total <= 30 && (r.total == 30 <==> level1 == 5 && level2 == 10 && level3 == 10)
  {
    var s1 := RescaleLevel1(level1);
    Rubric(s1, level2, level3, s1 + level2 + level3)
  }
}
