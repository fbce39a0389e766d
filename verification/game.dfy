/** The page state the handlers of game.js change: the board of levels 1 and 2, the score
    globals `window.level1ScoreValue`, `level2ScoreValue`, `level3ScoreValue` and
    `_politenessValue` (game.js:6-8, 149, 175, 189, 225), and the rubric inputs the auto-fill
    handler writes (game.js:322-330). Each handler is a method. */
module Game {
  import opened Wrappers
  import opened Text
  import opened Csv
  import opened Scoring
  import opened Board

  /** What a drop on the justify box did: nothing matched its selector, the reason was moved
      in, or it was refused because three reasons are already there. */
  datatype JustifyDrop = Ignored | Moved | Refused

  /** The targets served by `makeDropzone` (game.js:88-94). */
  predicate PlainTarget(z: Zone)
  {
    z == StrongDrop || z == MediumDrop || z == WeakDrop || z == MustNotBox || z == CannotBox
  }

  /** What the level 1 check reads off the board: the `data-impact` of the poster cards in each
      poster drop and the `data-modal` of the cards in each modal box. */
  function Level1View(zones: Zones): Level1Input
    requires Complete(zones)
  {
    AllZonesListed(StrongDrop);
    AllZonesListed(MediumDrop);
    AllZonesListed(WeakDrop);
    AllZonesListed(MustNotBox);
    AllZonesListed(CannotBox);
    Level1Input(Some(Impacts(zones[StrongDrop])), Some(Impacts(zones[MediumDrop])),
                Some(Impacts(zones[WeakDrop])), Some(Modals(zones[MustNotBox])),
                Some(Modals(zones[CannotBox])))
  }

  /** A poster drop counts exactly when it holds a poster card and every poster card in it
      carries the expected `data-impact`; other children are not looked at. */
  lemma PosterDropCorrect(s: seq<Item>, expected: string)
    ensures ContainerCorrect(Some(Impacts(s)), expected)
            <==> (exists i :: 0 <= i < |s| && s[i].PosterCard?)
                 && (forall i :: 0 <= i < |s| && s[i].PosterCard? ==> s[i].impact == expected)
  {
    var r := Impacts(s);
    ImpactsMembers(s);
    if exists i :: 0 <= i < |s| && s[i].PosterCard? {
      var i :| 0 <= i < |s| && s[i].PosterCard?;
      assert CarriesImpact(s, s[i].impact);
    }
    if |r| > 0 {
      assert CarriesImpact(s, r[0]);
    }
    if forall j :: 0 <= j < |r| ==> r[j] == expected {
      forall i | 0 <= i < |s| && s[i].PosterCard? ensures s[i].impact == expected {
        assert CarriesImpact(s, s[i].impact);
      }
    }
    if forall i :: 0 <= i < |s| && s[i].PosterCard? ==> s[i].impact == expected {
      forall j | 0 <= j < |r| ensures r[j] == expected {
        assert CarriesImpact(s, r[j]);
      }
    }
  }

  /** A modal box counts exactly when it holds a modal card and every modal card in it carries
      the expected `data-modal`. */
  lemma ModalBoxCorrect(s: seq<Item>, expected: string)
    ensures ContainerCorrect(Some(Modals(s)), expected)
            <==> (exists i :: 0 <= i < |s| && s[i].ModalCard?)
                 && (forall i :: 0 <= i < |s| && s[i].ModalCard? ==> s[i].modal == expected)
  {
    var r := Modals(s);
    ModalsMembers(s);
    if exists i :: 0 <= i < |s| && s[i].ModalCard? {
      var i :| 0 <= i < |s| && s[i].ModalCard?;
      assert CarriesModal(s, s[i].modal);
    }
    if |r| > 0 {
      assert CarriesModal(s, r[0]);
    }
    if forall j :: 0 <= j < |r| ==> r[j] == expected {
      forall i | 0 <= i < |s| && s[i].ModalCard? ensures s[i].modal == expected {
        assert CarriesModal(s, s[i].modal);
      }
    }
    if forall i :: 0 <= i < |s| && s[i].ModalCard? ==> s[i].modal == expected {
      forall j | 0 <= j < |r| ensures r[j] == expected {
        assert CarriesModal(s, r[j]);
      }
    }
  }

  /** `if (el) el.value = v`: an input present on the page takes the new text. */
  function Fill(field: Option<string>, text: string): (r: Option<string>)
    ensures r.Some? <==> field.Some?
    ensures r.Some? ==> r.value == text
  {
    if field.Some? then Some(text) else None
  }

  class PosterDetective {
    /** The children of every container of the page. */
    var zones: Zones
    /** The draggable items of the page; the handlers move them but never add or drop any. */
    ghost var items: multiset<Item>
    var level1: int
    var level2: int
    var level3: int
    /** `window._politenessValue`: None until a rating has been submitted. */
    var submitted: Option<int>
    /** The rubric's three score inputs and its total input; None for one absent from the
        page. */
    var rubricScores: seq<Option<string>>
    var rubricTotal: Option<string>

    ghost predicate Valid()
      reads this
    {
      && Complete(zones)
      && Placed(zones) == items
      && (forall y :: y in items ==> items[y] == 1)
      && (forall y :: y in zones[JustifyBox] ==> y.ReasonTag?)
      && |zones[JustifyBox]| <= 3
      && 0 <= level1 <= 5 && 0 <= level2 <= 10 && 0 <= level3 <= 10
      && (submitted.None? || 1 <= submitted.value <= 10)
      && |rubricScores| == 3
    }

    /** The page as loaded: the cards and tags in their pools, every score 0, no rating
        submitted. */
    constructor (posters: seq<Item>, modals: seq<Item>, reasons: seq<Item>,
                 scoreInputs: seq<Option<string>>, totalInput: Option<string>)
      requires Distinct(posters + modals + reasons)
      requires |scoreInputs| == 3
      ensures Valid()
      ensures zones == InitialZones(posters, modals, reasons)
      ensures items == multiset(posters + modals + reasons)
      ensures level1 == 0 && level2 == 0 && level3 == 0 && submitted == None
      ensures rubricScores == scoreInputs && rubricTotal == totalInput
    {
      zones := InitialZones(posters, modals, reasons);
      items := multiset(posters + modals + reasons);
      level1, level2, level3 := 0, 0, 0;
      submitted := None;
      rubricScores, rubricTotal := scoreInputs, totalInput;
      new;
      PlacedInitially(posters, modals, reasons);
      DistinctOnce(posters + modals + reasons);
      AllZonesListed(JustifyBox);
    }

    /** The board after `x` moves to `to` still holds every item once, and the justify box
        keeps only reasons and never grows unless it is the target. */
    static lemma MoveKeepsBoard(zones: Zones, items: multiset<Item>, x: Item, to: Zone)
      requires Complete(zones) && Placed(zones) == items && x in items
      requires forall y :: y in items ==> items[y] == 1
      requires JustifyBox in zones
      requires to != JustifyBox || x.ReasonTag?
      ensures Placed(Move(zones, x, to)) == items
      ensures forall y :: y in Move(zones, x, to)[JustifyBox] ==> y in zones[JustifyBox] || (to == JustifyBox && y == x)
      ensures to != JustifyBox ==> |Move(zones, x, to)[JustifyBox]| <= |zones[JustifyBox]|
    {
      MoveKeepsItems(zones, x, to);
      MoveTarget(zones, x, to);
      var from := ZoneOf(zones, x);
      var r := Move(zones, x, to);
      if from == JustifyBox {
        var rest := Remove(zones[from], x);
        forall y | y in rest ensures y in zones[JustifyBox] {
          assert multiset(rest)[y] <= multiset(zones[from])[y];
        }
      }
    }

    /** A drop on a poster drop or a modal box (game.js:70-94): the element being dragged, of
        whatever kind, becomes the target's last child. */
    method DropOnTarget(to: Zone, dragging: Option<Item>)
      requires Valid() && PlainTarget(to)
      requires dragging.Some? ==> dragging.value in items
      modifies this
      ensures Valid()
      ensures zones == (if dragging.Some? then Move(old(zones), dragging.value, to) else old(zones))
      ensures items == old(items)
      ensures level1 == old(level1) && level2 == old(level2) && level3 == old(level3)
      ensures submitted == old(submitted)
      ensures rubricScores == old(rubricScores) && rubricTotal == old(rubricTotal)
    {
      if dragging.Some? {
        MoveKeepsBoard(zones, items, dragging.value, to);
        zones := Move(zones, dragging.value, to);
      }
    }

    /** A drop on the justify box (game.js:100-106): only a reason tag still in the reason pool
        is taken, and only while fewer than three reasons are in the box. */
    method DropOnJustify(dragging: Option<Item>) returns (outcome: JustifyDrop)
      requires Valid()
      requires dragging.Some? ==> dragging.value in items
      modifies this
      ensures Valid()
      ensures outcome == Ignored <==>
                dragging.None? || !dragging.value.ReasonTag? || dragging.value !in old(zones)[ReasonPool]
      ensures outcome == Moved ==> |old(zones)[JustifyBox]| < 3 && zones == Move(old(zones), dragging.value, JustifyBox)
      ensures outcome == Moved ==> zones[JustifyBox] == old(zones)[JustifyBox] + [dragging.value]
      ensures outcome == Refused ==> |old(zones)[JustifyBox]| == 3
      ensures outcome != Moved ==> zones == old(zones)
      ensures items == old(items)
      ensures level1 == old(level1) && level2 == old(level2) && level3 == old(level3)
      ensures submitted == old(submitted)
      ensures rubricScores == old(rubricScores) && rubricTotal == old(rubricTotal)
    {
      AllZonesListed(ReasonPool);
      if dragging.None? || !dragging.value.ReasonTag? || dragging.value !in zones[ReasonPool] {
        return Ignored;
      }
      var x := dragging.value;
      ReasonIntoJustify(zones, items, x);
      if |Reasons(zones[JustifyBox])| < 3 {
        zones := Move(zones, x, JustifyBox);
        outcome := Moved;
      } else {
        outcome := Refused;
      }
    }

    /** A reason tag taken from the reason pool lands at the end of the justify box, which
        still holds reasons only; the box's reason count is its length. */
    static lemma ReasonIntoJustify(zones: Zones, items: multiset<Item>, x: Item)
      requires Complete(zones) && Placed(zones) == items && x in items
      requires forall y :: y in items ==> items[y] == 1
      requires forall y :: y in zones[JustifyBox] ==> y.ReasonTag?
      requires x.ReasonTag? && x in zones[ReasonPool]
      ensures |Reasons(zones[JustifyBox])| == |zones[JustifyBox]|
      ensures Placed(Move(zones, x, JustifyBox)) == items
      ensures Move(zones, x, JustifyBox)[JustifyBox] == zones[JustifyBox] + [x]
      ensures forall y :: y in Move(zones, x, JustifyBox)[JustifyBox] ==> y.ReasonTag?
    {
      ExactlyOneZone(zones, x);
      MoveKeepsBoard(zones, items, x, JustifyBox);
      MoveTarget(zones, x, JustifyBox);
    }

    /** A drop on the reason pool (game.js:112-116): a reason tag being dragged returns to the
        end of the pool, from wherever it is. */
    method DropOnReasonPool(dragging: Option<Item>)
      requires Valid()
      requires dragging.Some? ==> dragging.value in items
      modifies this
      ensures Valid()
      ensures zones == (if dragging.Some? && dragging.value.ReasonTag?
                        then Move(old(zones), dragging.value, ReasonPool) else old(zones))
      ensures items == old(items)
      ensures level1 == old(level1) && level2 == old(level2) && level3 == old(level3)
      ensures submitted == old(submitted)
      ensures rubricScores == old(rubricScores) && rubricTotal == old(rubricTotal)
    {
      if dragging.Some? && dragging.value.ReasonTag? {
        MoveKeepsBoard(zones, items, dragging.value, ReasonPool);
        zones := Move(zones, dragging.value, ReasonPool);
      }
    }

    /** The level 1 check (game.js:129-149): scores the board and stores the score. */
    method CheckLevel1() returns (total: int)
      requires Valid()
      modifies this
      ensures Valid()
      ensures total == Level1Score(Level1View(zones)) && level1 == total
      ensures total == 5 <==> PostersCorrect(Level1View(zones)) && ModalsCorrect(Level1View(zones)) == 2
      ensures zones == old(zones) && items == old(items)
      ensures level2 == old(level2) && level3 == old(level3) && submitted == old(submitted)
      ensures rubricScores == old(rubricScores) && rubricTotal == old(rubricTotal)
    {
      total := Level1Score(Level1View(zones));
      level1 := total;
    }

    /** The submit-rating handler (game.js:167-176): reads the slider (6 without one), picks
        the message band and remembers the rating. */
    method SubmitPoliteness(slider: Option<int>) returns (rating: int, band: Band)
      requires Valid()
      requires slider.None? || 1 <= slider.value <= 10
      modifies this
      ensures Valid()
      ensures rating == SliderValue(slider) && 1 <= rating <= 10
      ensures band == PolitenessBand(rating) && submitted == Some(rating)
      ensures zones == old(zones) && items == old(items)
      ensures level1 == old(level1) && level2 == old(level2) && level3 == old(level3)
      ensures rubricScores == old(rubricScores) && rubricTotal == old(rubricTotal)
    {
      rating := SliderValue(slider);
      band := PolitenessBand(rating);
      submitted := Some(rating);
    }

    /** The level 2 check with the score of game.js:187-188: the reasons in the justify box
        against the required ones, plus the rating in use, capped at 10. */
    method CheckLevel2(slider: Option<int>) returns (matches: nat, score: int)
      requires Valid()
      requires slider.None? || 1 <= slider.value <= 10
      modifies this
      ensures Valid()
      ensures matches == Matches(Reasons(zones[JustifyBox])) && matches <= 3
      ensures score == Level2Score(Reasons(zones[JustifyBox]), PolitenessUsed(submitted, slider))
      ensures score == MatchScore(matches) + PolitenessScore(PolitenessUsed(submitted, slider))
      ensures level2 == score && 0 <= score <= 10
      ensures zones == old(zones) && items == old(items) && submitted == old(submitted)
      ensures level1 == old(level1) && level3 == old(level3)
      ensures rubricScores == old(rubricScores) && rubricTotal == old(rubricTotal)
    {
      var chosen := Reasons(zones[JustifyBox]);
      matches := Matches(chosen);
      var p := PolitenessUsed(submitted, slider);
      Level2CapInactive(chosen, p);
      score := Level2Score(chosen, p);
      level2 := score;
    }

    /** The generate-poster handler (game.js:200-226): the level 3 score is stored only when a
        preview was generated. */
    method GeneratePoster(raw: seq<Option<string>>, hasPreview: bool) returns (o: PosterOutcome)
      requires Valid() && |raw| == 5
      modifies this
      ensures Valid()
      ensures o == Scoring.GeneratePoster(raw, hasPreview)
      ensures level3 == (if o.Generated? then o.score else old(level3))
      ensures zones == old(zones) && items == old(items) && submitted == old(submitted)
      ensures level1 == old(level1) && level2 == old(level2)
      ensures rubricScores == old(rubricScores) && rubricTotal == old(rubricTotal)
    {
      o := Scoring.GeneratePoster(raw, hasPreview);
      if o.Generated? {
        level3 := o.score;
      }
    }

    /** The auto-fill handler (game.js:317-330): level 1 rescaled to 10, levels 2 and 3 as
        they are, and their sum, written into the rubric inputs present on the page. */
    method AutoFillRubric() returns (r: Rubric)
      requires Valid()
      modifies this
      ensures Valid()
      ensures r == BuildRubric(level1, level2, level3)
      ensures 0 <= r.total <= 30
      ensures rubricScores == [Fill(old(rubricScores)[0], NatToString(r.s1)),
                               Fill(old(rubricScores)[1], NatToString(r.s2)),
                               Fill(old(rubricScores)[2], NatToString(r.s3))]
      ensures rubricTotal == Fill(old(rubricTotal), NatToString(r.total))
      ensures zones == old(zones) && items == old(items) && submitted == old(submitted)
      ensures level1 == old(level1) && level2 == old(level2) && level3 == old(level3)
    {
      var v1 := GetSafeNumber(Num(level1));
      var v2 := GetSafeNumber(Num(level2));
      var v3 := GetSafeNumber(Num(level3));
      r := BuildRubric(v1.n, v2.n, v3.n);
      rubricScores := [Fill(rubricScores[0], NatToString(r.s1)),
                       Fill(rubricScores[1], NatToString(r.s2)),
                       Fill(rubricScores[2], NatToString(r.s3))];
      rubricTotal := Fill(rubricTotal, NatToString(r.total));
    }

    /** The download-data handler (game.js:343-350): the score sheet as CSV text, each score
        taken from its rubric input or, when that is absent or empty, from the stored score. */
    method ExportScores(notes: seq<Option<string>>) returns (csv: string)
      requires Valid() && |notes| == 3
      ensures csv == ExportCsv([level1, level2, level3], rubricScores, notes)
      ensures ParseTable(csv) == Some(ScoreRows([level1, level2, level3], rubricScores, notes))
    {
      csv := ExportCsv([level1, level2, level3], rubricScores, notes);
    }
  }

  /** Once the rubric has been auto-filled, the sheet's level 1 score is the rescaled one
      (out of 10), not the stored one (out of 5). */
  lemma ExportAfterAutoFill(level1: nat, level2: nat, level3: nat, notes: seq<Option<string>>)
    requires |notes| == 3
    ensures var r := BuildRubric(level1, level2, level3);
            var rows := ScoreRows([level1, level2, level3],
                                  [Some(NatToString(r.s1)), Some(NatToString(r.s2)), Some(NatToString(r.s3))],
                                  notes);
            rows[1][1] == NatToString(2 * level1) && DecimalValue(rows[1][1]) == 2 * level1
  {
    NatToStringRoundTrip(2 * level1);
  }
}
