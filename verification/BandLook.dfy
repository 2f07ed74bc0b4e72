/** What shows on a row, and which bands a change of it reaches. */
module BandLooks {
  import opened Bytes
  import opened Fingerprints
  import opened Bands
  import opened BandPlans
  import opened FiniteSets

  /** The composition text drawn on row `r`, and its column: it is drawn at the cursor. */
  function Composing(p: Pane, r: nat): Option<(Text, u16)> {
    if p.cursorVisible && p.cursorRow == r && p.preedit != [] then Some((p.preedit, p.cursorCol)) else None
  }

  /** The column of the blinking cell that is off on row `r`. */
  function OffAt(p: Pane, r: nat): Option<u16> {
    if p.fakeOff.Some? && p.fakeOff.value.0 == r then Some(p.fakeOff.value.1) else None
  }

  /** All that decides what a row looks like on screen, but for composition text. */
  datatype RowLook = RowLook(hash: u64, off: Option<u16>, termPx: PxRect, cols: u16, look: Look)

  function LookOf(p: Pane, look: Look, r: nat): RowLook
    requires r < |p.rows|
  {
    RowLook(p.rows[r], OffAt(p, r), p.termPx, p.cols, look)
  }

  predicate InBand(p: Pane, b: nat, r: nat) {
    r < |p.rows| && BandOf(r) == b
  }

  /** Some row of the band has this composition text in this column. */
  ghost predicate Composes(p: Pane, b: nat, c: (Text, u16)) {
    exists r: nat :: InBand(p, b, r) && Composing(p, r) == Some(c)
  }

  ghost predicate SameRows(p: Pane, look: Look, q: Pane, look': Look, b: nat) {
    forall r: nat :: (InBand(p, b, r) <==> InBand(q, b, r)) && (InBand(p, b, r) ==> LookOf(p, look, r) == LookOf(q, look', r))
  }

  /** To a band's fingerprint two panes are the same if the band's rows look the same and
      the band has the same composition text in the same column, be it on another row. */
  ghost predicate SameToBand(p: Pane, look: Look, q: Pane, look': Look, b: nat) {
    SameRows(p, look, q, look', b) && forall c :: Composes(p, b, c) <==> Composes(q, b, c)
  }

  /** And they show the same if the text is on the same row, too. */
  ghost predicate ShowsTheSame(p: Pane, look: Look, q: Pane, look': Look, b: nat) {
    SameRows(p, look, q, look', b) && forall r: nat :: InBand(p, b, r) ==> Composing(p, r) == Composing(q, r)
  }

  // ---------------------------------------------------------------------------

  lemma BandIsRange(p: Pane, b: nat, r: nat)
    requires b < BandCount(|p.rows|)
    ensures InBand(p, b, r) <==> Lo(b) <= r < Hi(p, b)
    ensures Lo(b) < Hi(p, b)
  {
  }

  /** The input names the composition text of the band, if it has one. */
  lemma InputComposes(p: Pane, look: Look, b: nat, c: (Text, u16))
    requires b < BandCount(|p.rows|)
    ensures Composes(p, b, c) <==>
            c.0 != [] && InputOf(p, look, b).preedit == c.0 && InputOf(p, look, b).preeditCol == c.1
    ensures InputOf(p, look, b).preedit == [] ==> InputOf(p, look, b).preeditCol == 0
  {
    BandIsRange(p, b, p.cursorRow);
    if HasPreedit(p, b) && c == (p.preedit, p.cursorCol) {
      assert InBand(p, b, p.cursorRow) && Composing(p, p.cursorRow) == Some(c);
    }
  }

  lemma SameText(p: Pane, look: Look, q: Pane, look': Look, b: nat)
    requires b < BandCount(|p.rows|) && b < BandCount(|q.rows|)
    ensures var i, j := InputOf(p, look, b), InputOf(q, look', b);
            i.preedit == j.preedit && i.preeditCol == j.preeditCol <==> forall c :: Composes(p, b, c) <==> Composes(q, b, c)
  {
    hide InputOf, Composes, BandCount;
    var i, j := InputOf(p, look, b), InputOf(q, look', b);
    forall c ensures Composes(p, b, c) <==> c.0 != [] && i.preedit == c.0 && i.preeditCol == c.1 {
      InputComposes(p, look, b, c);
    }
    forall c ensures Composes(q, b, c) <==> c.0 != [] && j.preedit == c.0 && j.preeditCol == c.1 {
      InputComposes(q, look', b, c);
    }
    InputComposes(p, look, b, (i.preedit, i.preeditCol));
    InputComposes(q, look', b, (j.preedit, j.preeditCol));
    assert Composes(p, b, (i.preedit, i.preeditCol)) <==> i.preedit != [];
    assert Composes(q, b, (j.preedit, j.preeditCol)) <==> j.preedit != [];
  }

  lemma SameSlice(p: Pane, q: Pane, b: nat)
    requires b < BandCount(|p.rows|) && b < BandCount(|q.rows|)
    ensures p.rows[Lo(b)..Hi(p, b)] == q.rows[Lo(b)..Hi(q, b)] <==>
            Hi(p, b) == Hi(q, b) && forall r: nat :: Lo(b) <= r < Hi(p, b) ==> p.rows[r] == q.rows[r]
  {
    var v, w := p.rows[Lo(b)..Hi(p, b)], q.rows[Lo(b)..Hi(q, b)];
    BandIsRange(p, b, 0);
    BandIsRange(q, b, 0);
    if v == w {
      assert |v| == Hi(p, b) - Lo(b) && |w| == Hi(q, b) - Lo(b);
      forall r: nat | Lo(b) <= r < Hi(p, b) ensures p.rows[r] == q.rows[r] {
        assert v[r - Lo(b)] == w[r - Lo(b)];
      }
    }
  }

  lemma SameOff(p: Pane, look: Look, q: Pane, look': Look, b: nat)
    requires b < BandCount(|p.rows|) && b < BandCount(|q.rows|) && Hi(p, b) == Hi(q, b)
    ensures InputOf(p, look, b).fakeCursorOff == InputOf(q, look', b).fakeCursorOff <==>
            forall r: nat :: Lo(b) <= r < Hi(p, b) ==> OffAt(p, r) == OffAt(q, r)
  {
    if forall r: nat :: Lo(b) <= r < Hi(p, b) ==> OffAt(p, r) == OffAt(q, r) {
      if p.fakeOff.Some? && Lo(b) <= p.fakeOff.value.0 < Hi(p, b) {
        assert OffAt(p, p.fakeOff.value.0) == OffAt(q, p.fakeOff.value.0);
      }
      if q.fakeOff.Some? && Lo(b) <= q.fakeOff.value.0 < Hi(p, b) {
        assert OffAt(p, q.fakeOff.value.0) == OffAt(q, q.fakeOff.value.0);
      }
    }
  }

  lemma InputParts(p: Pane, look: Look, b: nat)
    requires b < BandCount(|p.rows|)
    ensures var i := InputOf(p, look, b);
            i.rowHashes == p.rows[Lo(b)..Hi(p, b)] && i.termPx == p.termPx && i.cols == p.cols &&
            i.style == look.style && i.defaultFg == look.defaultFg && i.preeditFg == look.preeditFg
  {
  }

  lemma SameRowsParts(p: Pane, look: Look, q: Pane, look': Look, b: nat)
    requires b < BandCount(|p.rows|) && b < BandCount(|q.rows|)
    ensures SameRows(p, look, q, look', b) <==>
            Hi(p, b) == Hi(q, b) && p.termPx == q.termPx && p.cols == q.cols && look == look' &&
            forall r: nat :: Lo(b) <= r < Hi(p, b) ==> p.rows[r] == q.rows[r] && OffAt(p, r) == OffAt(q, r)
  {
    hide BandCount, Hi, Lo, OffAt, BandOf;
    forall r: nat ensures InBand(p, b, r) <==> Lo(b) <= r < Hi(p, b) {
      BandIsRange(p, b, r);
    }
    forall r: nat ensures InBand(q, b, r) <==> Lo(b) <= r < Hi(q, b) {
      BandIsRange(q, b, r);
    }
    BandIsRange(p, b, 0);
    BandIsRange(q, b, 0);
    if SameRows(p, look, q, look', b) {
      assert InBand(p, b, Lo(b));
      assert LookOf(p, look, Lo(b)) == LookOf(q, look', Lo(b));
      assert InBand(p, b, Hi(p, b) - 1) && InBand(q, b, Hi(q, b) - 1);
      assert !InBand(p, b, Hi(p, b)) && !InBand(q, b, Hi(q, b));
      forall r: nat | Lo(b) <= r < Hi(p, b) ensures p.rows[r] == q.rows[r] && OffAt(p, r) == OffAt(q, r) {
        assert InBand(p, b, r) && LookOf(p, look, r) == LookOf(q, look', r);
      }
    }
  }

  /** Exactly what a band's fingerprint is taken of: every row of the band with everything
      that shows on it, except which of the rows the composition text is on. */
  lemma BandSeesItsRows(p: Pane, look: Look, q: Pane, look': Look, b: nat)
    requires b < BandCount(|p.rows|) && b < BandCount(|q.rows|)
    ensures BandBytes(InputOf(p, look, b)) == BandBytes(InputOf(q, look', b)) <==> SameToBand(p, look, q, look', b)
  {
    hide InputOf, BandBytes, SameRows, Composes, BandCount, Hi, Lo, OffAt;
    var i, j := InputOf(p, look, b), InputOf(q, look', b);
    SameText(p, look, q, look', b);
    SameSlice(p, q, b);
    SameRowsParts(p, look, q, look', b);
    InputParts(p, look, b);
    InputParts(q, look', b);
    if Hi(p, b) == Hi(q, b) {
      SameOff(p, look, q, look', b);
    }
    if BandBytes(i) == BandBytes(j) {
      BandBytesInjective(i, j);
    }
  }

  /** So nothing that shows is missed, exactly as long as composition text does not move
      from one row of the band to another. */
  lemma MissedIff(p: Pane, look: Look, q: Pane, look': Look, b: nat)
    requires b < BandCount(|p.rows|) && b < BandCount(|q.rows|)
    requires BandBytes(InputOf(p, look, b)) == BandBytes(InputOf(q, look', b))
    ensures ShowsTheSame(p, look, q, look', b) <==> forall c :: Composes(p, b, c) ==> p.cursorRow == q.cursorRow
  {
    BandSeesItsRows(p, look, q, look', b);
    hide InputOf, BandBytes, BandCount, LookOf, BandOf;
    forall r: nat | InBand(p, b, r) && Composing(p, r).Some? ensures r == p.cursorRow && Composes(p, b, Composing(p, r).value) {
    }
    forall r: nat | InBand(q, b, r) && Composing(q, r).Some? ensures r == q.cursorRow && Composes(q, b, Composing(q, r).value) {
    }
  }

  /** The comments ask of a band's input to list all that makes the band look different.
      Composition text that follows the cursor to another row of the same band is not
      noticed: the band keeps its fingerprint and the text its old place. */
  lemma MovedTextIsMissed(p: Pane, look: Look, r: u16, prev: map<Key, u64>)
    requires p.cursorVisible && p.preedit != [] && p.cursorRow < |p.rows| && r < |p.rows|
    requires BandOf(r) == BandOf(p.cursorRow) && r != p.cursorRow
    ensures var q, b := p.(cursorRow := r), BandOf(r);
            b < BandCount(|p.rows|) && !ShowsTheSame(p, look, q, look, b) &&
            InputOf(q, look, b) == InputOf(p, look, b) &&
            (Lookup(prev, (p.id, b)) == Some(BandFp(InputOf(p, look, b))) ==>
               !PlanOf(Place((p.id, b), InputOf(q, look, b)), prev, false).dirty)
  {
    var q, b := p.(cursorRow := r), BandOf(r);
    assert InBand(p, b, r) && Composing(p, r) != Composing(q, r);
    BandIsRange(p, b, p.cursorRow);
    BandIsRange(p, b, r);
    assert Hi(q, b) == Hi(p, b) && InputOf(q, look, b) == InputOf(p, look, b);
  }

  // ---------------------------------------------------------------------------
  // Which places of a frame a change reaches.

  /** The places whose fingerprints are taken of something else now. */
  ghost function Changed(a: seq<Place>, b: seq<Place>): set<int> {
    set x | 0 <= x < |a| && (x < |b| ==> BandBytes(a[x].input) != BandBytes(b[x].input))
  }

  /** The place of band `b` of pane `i`. */
  function At(panes: seq<Pane>, i: nat, b: nat): int
    requires i < |panes|
  {
    Base(panes, i) + b
  }

  function PlacesOf(panes: seq<Pane>, i: nat, bands: set<nat>): set<int>
    requires i < |panes|
  {
    set b | b in bands :: At(panes, i, b)
  }

  /** One pane changes, its height and number stay: only its own bands can change, and
      they change exactly where they see a difference. */
  lemma OnePaneChanges(panes: seq<Pane>, look: Look, i: nat, q: Pane, bands: set<nat>)
    requires i < |panes| && q.id == panes[i].id && |q.rows| == |panes[i].rows|
    requires forall b: nat :: b in bands <==> b < BandCount(|q.rows|) && !SameToBand(panes[i], look, q, look, b)
    ensures var a, b := Places(panes, look), Places(panes[i := q], look);
            |a| == |b| && Changed(a, b) == PlacesOf(panes, i, bands)
  {
    hide BandBytes, InputOf, Places, BandCount, SameToBand;
    var panes' := panes[i := q];
    var a, b := Places(panes, look), Places(panes', look);
    BasesAgree(panes, panes', |panes|);
    SameLength(panes, panes', look);
    forall x | 0 <= x < |a| ensures x in Changed(a, b) <==> x in PlacesOf(panes, i, bands) {
      var j, c := PlaceOrigin(panes, look, x);
      PlaceIn(panes', look, j, c);
      if j == i {
        BandSeesItsRows(panes[i], look, q, look, c);
        assert At(panes, i, c) == x;
      } else {
        NotHis(panes, i, j, c, x);
      }
    }
    forall x | x in PlacesOf(panes, i, bands) ensures 0 <= x < |a| {
      var c :| c in bands && x == At(panes, i, c);
      PlaceIn(panes, look, i, c);
    }
  }

  /** Bands of different panes have different places. */
  lemma NotHis(panes: seq<Pane>, i: nat, j: nat, c: nat, x: nat)
    requires i < |panes| && j < |panes| && i != j && c < BandCount(|panes[j].rows|) && x == Base(panes, j) + c
    ensures forall d: nat :: d < BandCount(|panes[i].rows|) ==> x != At(panes, i, d)
  {
    hide BandCount;
    if i < j {
      BaseGrows(panes, i + 1, j);
    } else {
      BaseGrows(panes, j + 1, i);
    }
  }

  lemma OthersSame(p: Pane, look: Look, q: Pane, b: nat)
    requires |p.rows| == |q.rows| && p.termPx == q.termPx && p.cols == q.cols
    requires forall r: nat :: InBand(p, b, r) ==> p.rows[r] == q.rows[r] && OffAt(p, r) == OffAt(q, r) && Composing(p, r) == Composing(q, r)
    ensures SameToBand(p, look, q, look, b)
  {
    hide BandOf, OffAt, Composing;
    forall c ensures Composes(p, b, c) <==> Composes(q, b, c) {
      if Composes(p, b, c) {
        var r: nat :| InBand(p, b, r) && Composing(p, r) == Some(c);
        assert InBand(q, b, r);
      }
      if Composes(q, b, c) {
        var r: nat :| InBand(q, b, r) && Composing(q, r) == Some(c);
        assert InBand(p, b, r);
      }
    }
  }

  /** Changing one row changes its own band and no other. */
  lemma OneRowOneBand(panes: seq<Pane>, look: Look, i: nat, r: nat, hash: u64)
    requires i < |panes| && r < |panes[i].rows| && hash != panes[i].rows[r]
    ensures var panes' := panes[i := panes[i].(rows := panes[i].rows[r := hash])];
            Changed(Places(panes, look), Places(panes', look)) == PlacesOf(panes, i, {BandOf(r)})
  {
    hide Places, Changed, BandCount;
    var p, q := panes[i], panes[i].(rows := panes[i].rows[r := hash]);
    RowInBand(p, r);
    assert InBand(p, BandOf(r), r) && LookOf(p, look, r) != LookOf(q, look, r);
    forall b: nat ensures SameToBand(p, look, q, look, b) <==> b != BandOf(r) {
      if b != BandOf(r) {
        OthersSame(p, look, q, b);
      }
    }
    OnePaneChanges(panes, look, i, q, {BandOf(r)});
  }

  /** Typing in an input method changes the band of the cursor's row and no other. */
  lemma ComposingOneBand(panes: seq<Pane>, look: Look, i: nat, preedit: Text, col: u16)
    requires i < |panes| && panes[i].cursorVisible && panes[i].cursorRow < |panes[i].rows|
    requires preedit != panes[i].preedit || (preedit != [] && col != panes[i].cursorCol)
    ensures var panes' := panes[i := panes[i].(preedit := preedit, cursorCol := col)];
            Changed(Places(panes, look), Places(panes', look)) == PlacesOf(panes, i, {BandOf(panes[i].cursorRow)})
  {
    hide Places, Changed, BandCount;
    var p, q := panes[i], panes[i].(preedit := preedit, cursorCol := col);
    var r: nat := p.cursorRow;
    RowInBand(p, r);
    assert Composing(p, r) != Composing(q, r);
    forall b: nat ensures SameToBand(p, look, q, look, b) <==> b != BandOf(r) {
      if b != BandOf(r) {
        OthersSame(p, look, q, b);
      } else {
        OwnTextDiffers(p, q);
      }
    }
    OnePaneChanges(panes, look, i, q, {BandOf(r)});
  }

  lemma OwnTextDiffers(p: Pane, q: Pane)
    requires p.cursorRow == q.cursorRow < |p.rows| && Composing(p, p.cursorRow) != Composing(q, p.cursorRow)
    requires |p.rows| == |q.rows|
    ensures exists c :: !(Composes(p, BandOf(p.cursorRow), c) <==> Composes(q, BandOf(p.cursorRow), c))
  {
    var r: nat, b := p.cursorRow, BandOf(p.cursorRow);
    assert InBand(p, b, r) && InBand(q, b, r);
    if Composing(p, r).Some? {
      assert Composes(p, b, Composing(p, r).value);
    }
    if Composing(q, r).Some? {
      assert Composes(q, b, Composing(q, r).value);
    }
  }

  /** Moving the cursor while composing changes the bands it leaves and enters, if they
      are two. */
  lemma MovingText(panes: seq<Pane>, look: Look, i: nat, r: u16)
    requires i < |panes| && panes[i].cursorVisible && panes[i].preedit != []
    requires panes[i].cursorRow < |panes[i].rows| && r < |panes[i].rows|
    ensures var from, to := BandOf(panes[i].cursorRow), BandOf(r);
            Changed(Places(panes, look), Places(panes[i := panes[i].(cursorRow := r)], look)) ==
            PlacesOf(panes, i, if from == to then {} else {from, to})
  {
    hide Places, Changed, BandCount;
    var p, q := panes[i], panes[i].(cursorRow := r);
    var s: nat := p.cursorRow;
    RowInBand(p, r);
    RowInBand(p, s);
    forall b: nat ensures SameToBand(p, look, q, look, b) <==> BandOf(r) == BandOf(s) || (b != BandOf(r) && b != BandOf(s)) {
      TextMoves(p, look, q, b);
    }
    OnePaneChanges(panes, look, i, q, if BandOf(r) == BandOf(s) then {} else {BandOf(r), BandOf(s)});
  }

  lemma TextMoves(p: Pane, look: Look, q: Pane, b: nat)
    requires p.cursorVisible && p.preedit != [] && p.cursorRow < |p.rows| && q.cursorRow < |p.rows|
    requires q == p.(cursorRow := q.cursorRow)
    ensures SameToBand(p, look, q, look, b) <==>
            BandOf(q.cursorRow) == BandOf(p.cursorRow) || (b != BandOf(q.cursorRow) && b != BandOf(p.cursorRow))
  {
    hide BandOf;
    var text := (p.preedit, p.cursorCol);
    forall c ensures Composes(p, b, c) <==> c == text && b == BandOf(p.cursorRow) {
      if c == text && b == BandOf(p.cursorRow) {
        assert InBand(p, b, p.cursorRow) && Composing(p, p.cursorRow) == Some(c);
      }
    }
    forall c ensures Composes(q, b, c) <==> c == text && b == BandOf(q.cursorRow) {
      if c == text && b == BandOf(q.cursorRow) {
        assert InBand(q, b, q.cursorRow) && Composing(q, q.cursorRow) == Some(c);
      }
    }
    assert SameRows(p, look, q, look, b);
    assert Composes(p, b, text) <==> b == BandOf(p.cursorRow);
  }

  /** The band in which a cell is off, if the cell is on the screen. */
  function OffBand(p: Pane, off: Option<(u16, u16)>): set<nat> {
    if off.Some? && off.value.0 < |p.rows| then {BandOf(off.value.0)} else {}
  }

  /** A blinking cell that goes on, off or elsewhere changes the band it leaves and the
      band it enters. */
  lemma BlinkingCell(panes: seq<Pane>, look: Look, i: nat, off: Option<(u16, u16)>)
    requires i < |panes| && off != panes[i].fakeOff
    ensures Changed(Places(panes, look), Places(panes[i := panes[i].(fakeOff := off)], look)) ==
            PlacesOf(panes, i, OffBand(panes[i], panes[i].fakeOff) + OffBand(panes[i], off))
  {
    hide Places, Changed, BandCount, BandOf;
    var p, q := panes[i], panes[i].(fakeOff := off);
    OffInBand(p, p.fakeOff);
    OffInBand(p, off);
    forall b: nat ensures SameToBand(p, look, q, look, b) <==> b !in OffBand(p, p.fakeOff) + OffBand(p, off) {
      CellMoves(p, look, q, b);
    }
    OnePaneChanges(panes, look, i, q, OffBand(p, p.fakeOff) + OffBand(p, off));
  }

  lemma OffInBand(p: Pane, off: Option<(u16, u16)>)
    ensures forall b: nat :: b in OffBand(p, off) ==> b < BandCount(|p.rows|)
  {
    if off.Some? && off.value.0 < |p.rows| {
      RowInBand(p, off.value.0);
    }
  }

  lemma CellMoves(p: Pane, look: Look, q: Pane, b: nat)
    requires q == p.(fakeOff := q.fakeOff) && q.fakeOff != p.fakeOff
    ensures SameToBand(p, look, q, look, b) <==> b !in OffBand(p, p.fakeOff) + OffBand(p, q.fakeOff)
  {
    hide BandOf;
    if b !in OffBand(p, p.fakeOff) + OffBand(p, q.fakeOff) {
      OthersSame(p, look, q, b);
    } else {
      var r: nat := if b in OffBand(p, p.fakeOff) then p.fakeOff.value.0 else q.fakeOff.value.0;
      assert InBand(p, b, r) && LookOf(p, look, r) != LookOf(q, look, r);
    }
  }

  /** Moving, resizing or rewrapping a pane changes every band of it. */
  lemma WholePane(panes: seq<Pane>, look: Look, i: nat, px: PxRect, cols: u16)
    requires i < |panes| && (px != panes[i].termPx || cols != panes[i].cols)
    ensures Changed(Places(panes, look), Places(panes[i := panes[i].(termPx := px, cols := cols)], look)) ==
            PlacesOf(panes, i, AllBands(panes[i]))
  {
    hide Places, Changed, BandCount;
    var p, q := panes[i], panes[i].(termPx := px, cols := cols);
    forall b: nat | b < BandCount(|p.rows|) ensures !SameToBand(p, look, q, look, b) {
      BandIsRange(p, b, Lo(b));
      assert InBand(p, b, Lo(b)) && LookOf(p, look, Lo(b)) != LookOf(q, look, Lo(b));
    }
    OnePaneChanges(panes, look, i, q, AllBands(p));
  }

  ghost function AllBands(p: Pane): set<nat> {
    set b: nat | b in Range(0, BandCount(|p.rows|))
  }

  /** A change of style or colours changes every band there is. */
  lemma WholeFrame(panes: seq<Pane>, look: Look, look': Look, x: nat)
    requires look != look' && x < |Places(panes, look)|
    ensures |Places(panes, look')| == |Places(panes, look)| && x in Changed(Places(panes, look), Places(panes, look'))
  {
    hide Places, BandCount, InputOf, BandBytes;
    PlacesLength(panes, look, |panes|);
    PlacesLength(panes, look', |panes|);
    assert panes[..|panes|] == panes;
    var i, b := PlaceOrigin(panes, look, x);
    PlaceIn(panes, look', i, b);
    var p := panes[i];
    BandSeesItsRows(p, look, p, look', b);
    BandIsRange(p, b, Lo(b));
    assert InBand(p, b, Lo(b)) && LookOf(p, look, Lo(b)) != LookOf(p, look', Lo(b));
  }
}
