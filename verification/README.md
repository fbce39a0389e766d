# Poster Detective game logic

A Dafny model of `game.js`, the script behind the Poster Detective classroom game. The game
has three levels:

- **Level 1.** Students drag poster cards into "strong", "medium" and "weak" drop zones. They
  drag modal cards into "must not" and "cannot" boxes. Then they press *Check*, which scores
  the board out of 5.
- **Level 2.** Students rate the poster's politeness with a slider. They drag up to three
  reason tags into a justify box. The check scores the matching reasons and the rating out
  of 10.
- **Level 3.** Students type an opening line, a supporting line and up to three rules. The
  script builds an HTML preview with every text escaped, and scores the number of filled
  fields out of 10.

A teacher rubric rescales level 1 to 10, fills the rubric inputs and exports a CSV score
sheet.

The project has these modules:

- `Wrappers`: an `Option` type, used for page elements that may be missing.
- `Text`: `replaceAll` with a one-character pattern, `join`, `trim` (with the ECMAScript
  whitespace set) and the decimal form of a number.
- `Html`: `escapeHtml` as five chained `replaceAll` passes. It is proved equal to a single-pass
  encoder, reversible, injective, and safe to splice into markup.
- `Csv`: the `downloadAllData` quoting and joining. A reader for the format shows that the
  export loses nothing.
- `Scoring`: the pure scoring rules:
  - level 1, level 2 and level 3 scores;
  - `Math.round` as exact integer rounding;
  - the rating bands;
  - the preview contents;
  - `getSafeNumber` and the rubric numbers.
- `Board`: the containers of the drag-and-drop board and `appendChild` as a move of one item.
  The main fact is that every item stays in exactly one container.
- `Game`: the class `PosterDetective`. It holds the board, the score globals
  (`window.level1ScoreValue`, `level2ScoreValue`, `level3ScoreValue`, `_politenessValue`) and
  the rubric inputs. Each click or drop handler is a method that updates them.

`Math.round(n / d)` on a non-negative ratio is modelled by `RoundDiv(n, d) = (2n + d) / (2d)`,
which is exact for a positive divisor. The floating-point division of the script is replaced by
exact rational reasoning. Every ratio the script rounds is a ratio of small non-negative
integers that never falls within floating-point error of a .5 tie, so no result changes.

## Model

| member | source | states |
|---|---|---|
| Html.EscapeHtmlIsSinglePass | game.js:11-18 | The five chained passes, `&` first, equal one left-to-right pass that replaces each special character by its entity. No entity is escaped twice. |
| Html.EscapeHtml | game.js:11-18 | `escapeHtml` as written: five chained `replaceAll` passes, `&` first. It has no `ensures` of its own. Its properties are stated by `EscapeHtmlIsSinglePass`, `EscapeHtmlRoundTrip`, `EscapeHtmlInjective` and `EscapeHtmlWellEscaped`. |
| Html.EscapeHtmlRoundTrip | game.js:11-18 | Decoding the five entities in the output of `escapeHtml` gives back the input. |
| Html.EscapeHtmlInjective | game.js:11-18 | Two texts with the same escaped form are equal. |
| Html.EscapeHtmlWellEscaped | game.js:11-18 | The output has no `<`, `>`, `"` or `'`, and every `&` in it starts one of the five entities. |
| Html.EscapeHtmlPlain | game.js:11-18 | A text without any of the five special characters is returned unchanged. |
| Html.EscapeHtmlAppend | game.js:11-18 | Escaping distributes over concatenation. |
| Html.EscapeAmp | game.js:13 | The first pass turns `&` into `&amp;`, and the four later passes leave that alone. |
| Html.EscapeLt | game.js:14 | `<` becomes `&lt;`. |
| Html.EscapeGt | game.js:15 | `>` becomes `&gt;`. |
| Html.EscapeQuot | game.js:16 | `"` becomes `&quot;`. |
| Html.EscapeApos | game.js:17 | `'` becomes `&#39;`. |
| Text.ReplaceAllAppend | game.js:13-17 | `replaceAll` with a one-character pattern distributes over concatenation. |
| Text.ReplaceAllAbsent | game.js:13-17 | `replaceAll` leaves a string without the pattern unchanged. |
| Text.ReplaceAll | game.js:13-17 | `replaceAll` with a one-character pattern. Once the pattern is replaced by a text without it, the pattern no longer occurs. Distribution over concatenation is `ReplaceAllAppend`. |
| Text.Join | game.js:350 | `join` on a list of strings. It has no `ensures` of its own. The properties of the joined rows and table are `Csv.RowSeparators`, `Csv.TableLineFeeds` and `Csv.TableRoundTrip`. |
| Text.Trim | game.js:201-205 | `trim()` gives a text that neither starts nor ends with whitespace. |
| Text.TrimSlice | game.js:201-205 | The trimmed text is the slice of the input after its leading whitespace, followed only by whitespace. |
| Text.TrimEmptyIff | game.js:201-207 | A trimmed field is empty exactly when the raw text was whitespace only. |
| Text.TrimIdempotent | game.js:201-205 | Trimming twice is trimming once. |
| Text.NatToStringRoundTrip | game.js:327-330 | Reading back the decimal text written into a rubric input gives the number. |
| Text.NatToString | game.js:327-330 | The decimal text of a number written into an input: non-empty, digits only, and without a leading zero unless the number is 0. Reading it back is `NatToStringRoundTrip`. |
| Scoring.RoundDiv | game.js:183 | `Math.round(n / d)` is the integer r with 2dr - d <= 2n < 2dr + d, so halves round up. |
| Scoring.RoundDivMonotone | game.js:183 | Rounding keeps the order of the ratios rounded. |
| Scoring.RoundDivUnique | game.js:183 | Any r within those bounds is the rounded value. |
| Scoring.ContainerCorrect | game.js:130-137 | A zone counts exactly when it exists on the page, holds at least one card, and every card has the expected attribute. |
| Scoring.Level1Score | game.js:139-148 | The score is at most 5. It is 3 or more exactly when all three poster zones are correct. It is 5 exactly when the posters and both modal boxes are correct. |
| Scoring.Level1Empty | game.js:135 | An untouched board, with every zone empty, scores 0. |
| Scoring.Level1OneModalEmpty | game.js:143-147 | Correct posters, one correct modal box and the other empty give 4. |
| Scoring.Level1PosterAllOrNothing | game.js:139 | One misplaced poster card in any of the strong, medium or weak zones loses all 3 poster points. |
| Scoring.Matches | game.js:181 | The number of matches is at most the number of chosen reasons. |
| Scoring.MatchesExtremes | game.js:180-181 | Every chosen reason matches exactly when all are required ones. None matches exactly when none is. |
| Scoring.MatchesAppend | game.js:181 | The match count of two selections together is the sum of their counts. |
| Scoring.MatchesSingle | game.js:181 | One chosen reason counts 1 exactly when it is a required one, else 0. Together with `MatchesAppend` this fixes the count of any selection, mixed ones included. |
| Scoring.MatchScoreTable | game.js:183 | 0, 1, 2 and 3 matches give 0, 2, 5 and 7 points. |
| Scoring.MatchScoreMonotone | game.js:183 | More matches never give fewer points. |
| Scoring.MatchScore | game.js:183 | `Math.round((matches / 3) * 7)`. It has no `ensures` of its own. Its values are stated by `MatchScoreTable` and `MatchScoreMonotone`. |
| Scoring.PolitenessScore | game.js:187 | `Math.round(((p - 1) / 9) * 3)`. It has no `ensures` of its own. Its range and order are stated by `PolitenessScoreRange`. |
| Scoring.PolitenessScoreRange | game.js:187 | On ratings 1..10 the politeness part runs from 0 at 1 to 3 at 10, and it never decreases. |
| Scoring.Level2Score | game.js:188 | The level 2 score never exceeds 10. |
| Scoring.Level2CapInactive | game.js:183-188 | With at most three reasons and a rating in 1..10, the cap at 10 never bites. The score is the sum of the parts and lies in 0..10. |
| Scoring.Level2Extremes | game.js:179-188 | Three required reasons at rating 10 give 10. Three non-required reasons at rating 1 give 0. |
| Scoring.Level2CheckAsWritten | game.js:178-189 | The handler as written ends in a ReferenceError exactly when no global `politen` exists. Otherwise it stores the score of lines 187-188. |
| Scoring.Level2AsWrittenLosesFullMarks | game.js:185 | All three required reasons at rating 10 deserve 10 points, yet the handler as written throws before storing them. |
| Scoring.PolitenessUsed | game.js:184 | The rating in use is the submitted rating when there is a non-zero one, else the slider (6 without a slider). It lies in 1..10 when its sources do. |
| Scoring.SliderValue | game.js:168 | The slider's value, or 6 without a slider. It has no `ensures` of its own. It is used by `PolitenessUsed` and `Game.PosterDetective.SubmitPoliteness`. |
| Scoring.PolitenessBand | game.js:170-172 | A rating of 4 or less gives the "impolite" message, 5..7 the "moderately polite" one, and above 7 the "very polite" one. |
| Scoring.PolitenessBandMonotone | game.js:170-172 | A higher rating never gets a less polite message. |
| Scoring.FieldTexts | game.js:201-205 | Each field's text is the trimmed input value, or "" for a missing input. |
| Scoring.FieldText | game.js:201-205 | One input's trimmed value, or the empty string when the input is missing. It has no `ensures` of its own. `FieldTexts` and `Text.TrimEmptyIff` state its meaning. |
| Scoring.NonEmpty | game.js:224 | `filter(Boolean)` keeps at most all the texts. Its result is empty exactly when every text is empty. A text is in the result exactly when it is an input text that is not empty. |
| Scoring.NonEmptySingle | game.js:224 | One text is kept exactly when it is not empty. With `NonEmptyAppend` this fixes the filtered list, contents and order, for every input. |
| Scoring.NonEmptyAppend | game.js:217 | Filtering distributes over concatenation. |
| Scoring.Level3ScoreExact | game.js:224-225 | Out of five fields, the level 3 score is exactly 2 points per filled field. |
| Scoring.Level3Score | game.js:225 | `Math.min(10, Math.round((filled / 5) * 10))`. It has no `ensures` of its own. Its value, 2 per filled field, is `Level3ScoreExact`. |
| Scoring.GeneratePoster | game.js:200-226 | Nothing is generated exactly when every trimmed field is empty. The handler stops without a score exactly when there is input but no preview area. A generated poster scores 2 per filled field, from 2 to 10. |
| Scoring.PreviewTextsEscapedFields | game.js:214-222 | The preview shows the non-empty fields, each escaped, in the order opening line, supporting line, rules. |
| Scoring.Preview | game.js:214-222 | The preview blocks: opening line, supporting line, then the rule list. It has no `ensures` of its own. Its texts are stated by `PreviewTextsEscapedFields`. |
| Scoring.SloganPart | game.js:215 | The opening line's block, present only when the line is not empty. It has no `ensures` of its own. Its texts are stated by `SloganShown`. |
| Scoring.SupportingPart | game.js:216 | The supporting line's block, present only when the line is not empty. It has no `ensures` of its own. Its texts are stated by `SupportingShown`. |
| Scoring.RulesPart | game.js:217-222 | The escaped non-empty rules in order, present only when there is one. It has no `ensures` of its own. Its texts are stated by `RulesShown`. |
| Scoring.GeneratedPreviewTexts | game.js:200-222 | The generated preview's texts are the escaped non-empty trimmed inputs. |
| Scoring.PosterPreviewFaithful | game.js:214-222 | Unescaping the preview gives back exactly the non-empty trimmed fields, and every shown text is safe markup. |
| Scoring.UnescapeAllEscapeAll | game.js:215-220 | Escaping a list of texts loses nothing. |
| Scoring.EscapeAllWellEscaped | game.js:215-220 | Every escaped text of the preview is well escaped. |
| Scoring.GetSafeNumber | game.js:265 | A number, NaN included, is kept. undefined and null give 0. The result is a number or NaN, and NaN only from NaN. |
| Scoring.RescaleLevel1 | game.js:318 | `Math.round((level1 / 5) * 10)` is exactly twice the level 1 score. |
| Scoring.BuildRubric | game.js:269-272 | The entries are 2 x level 1, level 2 and level 3, and the total is their sum. With scores in range the total lies in 0..30, and it is 30 exactly when every level has full marks. |
| Csv.QuoteCell | game.js:350 | A written cell starts and ends with `"`. |
| Csv.QuoteCellQuotes | game.js:350 | A written cell holds its two delimiters plus two `"` for each `"` of its text. |
| Csv.QuoteCells | game.js:350 | `r.map(quote)`: one written cell per cell, in order. |
| Csv.Row | game.js:350 | The cells written and joined with `,`. It has no `ensures` of its own. It reads back by `ParseRowAppend`, and its separators are counted by `RowSeparators`. |
| Csv.Rows | game.js:350 | `rows.map(row)`: one written row per row, in order. |
| Csv.Table | game.js:350 | The rows written and joined with a line feed. It has no `ensures` of its own. It reads back by `TableRoundTrip`, and its line feeds are counted by `TableLineFeeds`. |
| Csv.ParseQuotedDoubled | game.js:350 | Undoubling the interior of a written cell gives back its text, and reading stops right after the closing quote. |
| Csv.ParseRowAppend | game.js:350 | A written row reads back as its cells. |
| Csv.TableRoundTrip | game.js:350 | The written text of one or more non-empty rows reads back as exactly those rows. |
| Csv.RowSeparators | game.js:350 | A row of n cells has exactly n - 1 commas outside quotes and no unquoted line feed. |
| Csv.TableLineFeeds | game.js:350 | Rows are separated by exactly one unquoted line feed each, with none after the last row. |
| Csv.ScoreRows | game.js:344-349 | The sheet has four rows of three cells each: the header and one row per level. |
| Csv.ScoreCell | game.js:346-348 | A level's score cell is the value typed in its rubric input when that input is present and not empty. Otherwise it is the stored score, written in decimal. |
| Csv.ValueOr | game.js:346-348 | An input's value, or the fallback when the input is missing or empty. It has no `ensures` of its own. For score inputs, both of its cases are stated by `ScoreCell`. |
| Csv.ExportCsv | game.js:343-350 | The exported text reads back as exactly the four score rows, with three row separators. |
| Board.Remove | game.js:83 | Taking an item out of a container removes one copy and keeps the rest. |
| Board.FirstIndex | game.js:83 | The position of the first occurrence of a child: that child is there and not earlier. |
| Board.RemoveKeepsOrder | game.js:83 | Removing a child cuts out its first occurrence. The other children keep their document order. |
| Board.Move | game.js:83 | After `appendChild` every container is still on the page. |
| Board.MoveKeepsItems | game.js:83 | Moving an item neither adds nor loses any item on the board. |
| Board.MoveTarget | game.js:83 | The moved item is the target's last child. Containers other than the source and the target are unchanged. The source loses exactly that item. |
| Board.MoveKeepsEachItemOnce | game.js:83 | After a move every item is still a child of exactly one container. |
| Board.ExactlyOneZone | game.js:83 | An item counted once on the board sits in exactly one container. |
| Board.PlacedInitially | game.js:64-67 | The items of the page as loaded are exactly those of the three pools. |
| Board.InitialZones | game.js:64-67 | The page as loaded has every container. `PlacedInitially` states that its items are exactly those of the three pools. |
| Board.Impacts | game.js:133 | The `data-impact` of the poster cards of a container, at most one per child. When all children are poster cards, the result is their impacts, position by position. |
| Board.ImpactsMembers | game.js:133 | A value is read off a container exactly when some poster card in it carries that `data-impact`. |
| Board.Modals | game.js:143-144 | The `data-modal` of the modal cards of a container, at most one per child. When all children are modal cards, the result is their modals, position by position. |
| Board.ModalsMembers | game.js:143-144 | A value is read off a container exactly when some modal card in it carries that `data-modal`. |
| Board.Reasons | game.js:179 | The `data-reason` of the reason tags of a container, at most one per child. When all children are reason tags, the result is their reasons, position by position. |
| Board.ReasonsMembers | game.js:179 | A value is read off the justify box exactly when some reason tag in it carries that `data-reason`. |
| Game.Fill | game.js:327-330 | An input present on the page takes the new text. A missing input stays missing. |
| Game.Level1View | game.js:133 | What the level 1 check reads off the board: the poster cards' impacts in the three poster drops and the modal cards' modals in the two boxes. It has no `ensures` of its own. `Game.PosterDetective.CheckLevel1` and `Scoring.Level1Score` state what the score of that view is. |
| Game.PosterDropCorrect | game.js:130-136 | A poster drop counts exactly when it holds a poster card and every poster card in it carries the expected `data-impact`. |
| Game.ModalBoxCorrect | game.js:143-144 | A modal box counts exactly when it holds a modal card and every modal card in it carries the expected `data-modal`. |
| Game.PosterDetective.constructor | game.js:6-8 | The page as loaded has cards and tags in their pools, every score at 0 and no submitted rating. |
| Game.PosterDetective.MoveKeepsBoard | game.js:83 | A move keeps the board's items, and the justify box grows only when it is the target. |
| Game.PosterDetective.DropOnTarget | game.js:70-94 | The dragged element, of whatever kind, becomes the target's last child. Nothing else changes. |
| Game.PosterDetective.DropOnJustify | game.js:97-106 | Only a reason tag still in the reason pool is taken, and only while the box holds fewer than three reasons. It is then appended to the box. Otherwise the drop is refused and the board is unchanged. |
| Game.PosterDetective.ReasonIntoJustify | game.js:104 | A reason taken from the pool lands at the end of the justify box, which still holds reasons only. |
| Game.PosterDetective.DropOnReasonPool | game.js:109-116 | A dragged reason tag returns to the end of the pool from wherever it is. Other items are ignored. |
| Game.PosterDetective.CheckLevel1 | game.js:129-149 | The stored level 1 score is the score of the board. It is 5 exactly when the posters and both modal boxes are correct. |
| Game.PosterDetective.SubmitPoliteness | game.js:167-176 | The rating is the slider's value (6 without a slider) and is remembered. The message band follows the rating. |
| Game.PosterDetective.CheckLevel2 | game.js:178-189 | The stored level 2 score is the match points plus the politeness points of the rating in use, and lies in 0..10. |
| Game.PosterDetective.GeneratePoster | game.js:200-226 | The level 3 score is stored only when a preview was generated. Otherwise it is kept. |
| Game.PosterDetective.AutoFillRubric | game.js:317-330 | Each rubric input on the page takes the decimal text of its entry: level 1 x 2, level 2, level 3 and the total, which lies in 0..30. |
| Game.PosterDetective.ExportScores | game.js:343-350 | The exported sheet reads back as the score rows built from the rubric inputs and the stored scores. |
| Game.ExportAfterAutoFill | game.js:346 | After auto-fill, the sheet's level 1 score is the rescaled one (out of 10), not the stored one. |

## Left out

- Level navigation, the `dragstart`/`dragend` class toggling and the `dataTransfer` payload (game.js:24-63, 119-123). They only change what is displayed. Each drop method receives the dragged element, or None when nothing is being dragged.
- The `maxChildren` branch of `makeDropzone` (game.js:78-82). No call site passes a limit, so the branch never runs.
- The element selectors: `.card` is taken to match modal cards only, and exactly one element is dragged at a time.
- The pools for posters and modal cards have no drop handler. The model therefore has no way to return those cards to them.
- The HTML strings of results and messages (game.js:151-155, 173-174, 190-191, 226), `alert`, `confirm` and the page reset (game.js:362-366). These are display or browser dialogs.
- PNG export via html2canvas (game.js:229-259), the rubric window, the printable rubric template with its date (game.js:273-315, 335-340), and the Blob download (game.js:351-357). These are browser I/O. The CSV text itself is modelled.
- The preview markup itself. The model keeps only the escaped texts and their order. It does not keep the inline styles or the list structure. The separate `innerHTML +=` steps of game.js:219-221 each re-parse the content, so the page gets an empty list with the rule items after it as siblings, not inside it.
- Scoring.GetSafeNumber: strings and booleans are not modelled as inputs. The score globals only ever hold numbers, so the model distinguishes numbers, NaN, undefined and null.
- Game.PosterDetective.SubmitPoliteness and Game.PosterDetective.CheckLevel2 require the slider value to lie in 1..10, the range the page's slider allows. A slider value is taken as already converted by `Number`.
- Game.PosterDetective.CheckLevel2: a page without a justify box makes line 179 throw. The model assumes the box exists, which the board always has.
- Game.PosterDetective: the class assumes that all five level 1 zones exist, as the page always has them. `Scoring.Level1Score` handles a missing zone (game.js:131-132, 141-144), but `CheckLevel1` never passes one. The `if(!drop) return` of `makeDropzone` (game.js:72) is not modelled either.
- Teacher edits to the rubric inputs are not modelled as an operation. They are part of the state `ExportScores` reads.
- Strings are sequences of Unicode scalar values, while JavaScript strings are sequences of UTF-16 code units. A character outside the Basic Multilingual Plane is one character in the model but two code units in the script. The five escaped characters, `"`, and the `trim` whitespace set are all single code units, so no proved property depends on this.
- Floating point: every ratio the script rounds is replaced by exact integer arithmetic, which gives the same result for these inputs.

## Findings

| source | as written | input that shows it | evidently intended | confidence | as-written member | corrected member |
|---|---|---|---|---|---|---|
| game.js:185 | The level 2 check reads the identifier `politen`, which nothing declares. Unless the page defines a global of that name, the read throws a ReferenceError, and no level 2 score is stored. | Reasons safety, clarity and compliance in the justify box, rating 10, no global `politen`: the handler throws instead of storing 10 (Scoring.Level2AsWrittenLosesFullMarks). | The score of lines 187-188: the match points plus the politeness points of the rating in use, capped at 10. | medium, not executed | Scoring.Level2CheckAsWritten | Scoring.Level2Extremes |
