/** The priority budget of the stacked dashboard (internal/tui/runview/runview.go): five rows share
    the terminal height. Row 0 is Summary with the rate strip, 1 Request Context, 2 Latency and
    Stats, 3 Protocol, 4 Endpoints and Status. A negative height means the row is not shown. */
module Budget {
  const STRIP := 3

  function RowCost(row: nat, height: int): int
  {
    if height < 0 then
      0
    else if row == 0 then
      height + 2 + STRIP
    else if row == 2 || row == 4 then
      2 * (height + 2)
    else
      height + 2
  }

  function Cost(rows: seq<int>): int
    requires |rows| == 5
  {
    RowCost(0, rows[0]) + RowCost(1, rows[1]) + RowCost(2, rows[2]) + RowCost(3, rows[3]) + RowCost(4, rows[4])
  }

  // ---------------------------------------------------------------- the answer in closed form

  /** Not even the needed Request Context fits: it is clipped, and nothing else is shown. */
  function Clipped(height: int): int
  {
    if height >= 7 then 5 else if height >= 2 then height - 2 else -1
  }

  /** `spare` lines besides Request Context, too few for the Summary and Latency shells. */
  function Tight(spare: int, needed: int): (rows: seq<int>)
    requires 0 <= spare <= 8
    ensures |rows| == 5
  {
    if spare == 0 then [-1, needed, -1, -1, -1]
    else if spare == 1 then [-1, needed + 1, -1, -1, -1]
    else if spare == 2 then [-1, needed, -1, 0, -1]
    else if spare <= 5 then [-1, needed + spare - 3, -1, 1, -1]
    else if spare == 6 then [1, needed, -1, -1, -1]
    else if spare == 7 then [2, needed, -1, -1, -1]
    else [1, needed, -1, 0, -1]
  }

  /** How `spare` lines grow Summary and Latency: summary lines, latency lines, lines left. */
  function Grown(spare: int): (int, int, int)
    requires spare >= 0
  {
    if spare == 1 then (1, 0, 0) else if spare == 2 then (0, 1, 0) else (spare / 3, spare / 3, spare % 3)
  }

  /** Lines of Latency before Protocol comes up for discussion. */
  function EarlyLatency(spare: int): (lines: int)
    requires spare >= 1
    ensures 0 <= lines <= 3
  {
    if spare >= 7 then 3 else (spare - 1) / 2
  }

  /** `spare` lines besides Request Context and the two shells. */
  function Roomy(spare: int, needed: int): (rows: seq<int>)
    requires spare >= 0
    ensures |rows| == 5
  {
    if spare == 0 then
      [0, needed, 0, -1, -1]
    else
      var early := EarlyLatency(spare);
      var a := spare - 1 - 2 * early;
      var protocol := a >= 2;
      var b := if protocol then a - 2 else a;
      var endpoints := b >= 4;
      var grown := Grown(if endpoints then b - 4 else b);
      [1 + grown.0,
       needed + if grown.2 > 0 && protocol then grown.2 - 1 else grown.2,
       early + grown.1,
       if !protocol then -1 else if grown.2 > 0 then 1 else 0,
       if endpoints then 0 else -1]
  }

  function Rows(height: int, needed: int): (rows: seq<int>)
    ensures |rows| == 5
  {
    if height < needed + 2 then
      [-1, Clipped(height), -1, -1, -1]
    else if height < needed + 11 then
      Tight(height - needed - 2, needed)
    else
      Roomy(height - needed - 11, needed)
  }

  // ---------------------------------------------------------------- the budget, stage by stage

  method Dashboard(height: int, needed: int) returns (rows: array<int>)
    requires needed >= 0
    ensures fresh(rows) && rows.Length == 5 && rows[..] == Rows(height, needed)
  {
    rows := new int[] [0, needed, 0, -1, -1];
    var remaining := height - Cost(rows[..]);
    if remaining < 0 {
      rows[0], rows[2] := -1, -1;
      remaining := height - RowCost(1, rows[1]);
      if remaining < 0 {
        if height >= RowCost(1, 5) {
          rows[1] := 5;
        } else if height >= 2 {
          rows[1] := if height - 2 > 0 then height - 2 else 0;
        } else {
          rows[1] := -1;
        }
        return;
      }
    }
    Distribute(rows, remaining, needed);
  }

  /** What happens once Request Context is paid for: priorities 1 to 7. */
  method Distribute(rows: array<int>, spare: int, needed: int)
    requires needed >= 0 && spare >= 0
    requires (rows[..] == [-1, needed, -1, -1, -1] && spare <= 8) || rows[..] == [0, needed, 0, -1, -1]
    modifies rows
    ensures rows[..] == if old(rows[0]) < 0 then Tight(spare, needed) else Roomy(spare, needed)
  {
    assert rows.Length == |rows[..]| == 5;
    assert rows[1] == rows[..][1] && rows[3] == rows[..][3] && rows[4] == rows[..][4];
    assert rows[0] == rows[..][0] && rows[2] == rows[..][2];
    var remaining := ShowSummaryAndLatency(rows, spare);
    remaining := ShowLowerPanels(rows, remaining);
    remaining := GrowSummaryAndLatency(rows, remaining);
    UseOddLines(rows, remaining);
  }

  /** Priorities 1, 2 and 2.5. */
  method ShowSummaryAndLatency(rows: array<int>, spare: int) returns (remaining: int)
    requires rows.Length == 5 && spare >= 0
    requires (rows[0] == -1 && rows[2] == -1) || (rows[0] == 0 && rows[2] == 0)
    modifies rows
    ensures rows[1] == old(rows[1]) && rows[3] == old(rows[3]) && rows[4] == old(rows[4])
    ensures old(rows[0]) == -1 && spare < 6 ==> rows[0] == rows[2] == -1 && remaining == spare
    ensures old(rows[0]) == -1 && 6 <= spare < 12 ==> rows[0] == 1 && rows[2] == -1 && remaining == spare - 6
    ensures old(rows[0]) == 0 && spare == 0 ==> rows[0] == rows[2] == 0 && remaining == 0
    ensures old(rows[0]) == 0 && spare > 0 ==>
              rows[0] == 1 && rows[2] == EarlyLatency(spare) && remaining == spare - 1 - 2 * rows[2]
  {
    remaining := spare;
    if remaining >= 6 && rows[0] < 0 {
      rows[0] := 1;
      remaining := remaining - 6;
    } else if remaining >= 1 && rows[0] == 0 {
      rows[0] := 1;
      remaining := remaining - 1;
    }
    if remaining >= 6 && rows[2] < 0 {
      rows[2] := 1;
      remaining := remaining - 6;
    } else if remaining >= 2 && rows[2] == 0 {
      rows[2] := 1;
      remaining := remaining - 2;
    }
    while remaining >= 2 && 0 < rows[2] < 3
      invariant rows[1] == old(rows[1]) && rows[3] == old(rows[3]) && rows[4] == old(rows[4])
      invariant old(rows[0]) == -1 && spare < 12 ==> rows[0] == (if spare >= 6 then 1 else -1) && rows[2] == -1
      invariant old(rows[0]) == -1 && spare < 12 ==> remaining == if spare >= 6 then spare - 6 else spare
      invariant old(rows[0]) == 0 ==> rows[0] == if spare >= 1 then 1 else 0
      invariant old(rows[0]) == 0 && spare == 0 ==> rows[2] == remaining == 0
      invariant old(rows[0]) == 0 && spare > 0 ==>
          && remaining == spare - 1 - 2 * rows[2] && remaining >= 0
          && 0 <= rows[2] <= 3 && (rows[2] == 0 ==> remaining < 2)
      decreases remaining
    {
      rows[2] := rows[2] + 1;
      remaining := remaining - 2;
    }
  }

  /** Priorities 3 and 4. */
  method ShowLowerPanels(rows: array<int>, spare: int) returns (remaining: int)
    requires rows.Length == 5 && rows[3] == rows[4] == -1 && spare >= 0
    modifies rows
    ensures rows[0] == old(rows[0]) && rows[1] == old(rows[1]) && rows[2] == old(rows[2])
    ensures rows[3] == (if spare >= 2 then 0 else -1) && rows[4] == if spare >= 6 then 0 else -1
    ensures remaining == if spare >= 6 then spare - 6 else if spare >= 2 then spare - 2 else spare
  {
    remaining := spare;
    if remaining >= 2 {
      rows[3] := 0;
      remaining := remaining - 2;
    }
    if remaining >= 4 {
      rows[4] := 0;
      remaining := remaining - 4;
    }
  }

  /** Priority 5. */
  method GrowSummaryAndLatency(rows: array<int>, spare: int) returns (remaining: int)
    requires rows.Length == 5 && spare >= 0
    requires rows[0] >= -1 && rows[2] >= -1 && (rows[2] >= 0 ==> rows[0] >= 0)
    modifies rows
    ensures rows[1] == old(rows[1]) && rows[3] == old(rows[3]) && rows[4] == old(rows[4])
    ensures old(rows[0]) < 0 ==> rows[0] == old(rows[0]) && rows[2] == old(rows[2]) && remaining == spare
    ensures old(rows[0]) >= 0 && old(rows[2]) < 0 && spare <= 1 ==>
              rows[0] == old(rows[0]) + spare && rows[2] == old(rows[2]) && remaining == 0
    ensures old(rows[2]) >= 0 ==>
              && rows[0] == old(rows[0]) + Grown(spare).0 && rows[2] == old(rows[2]) + Grown(spare).1
              && remaining == Grown(spare).2
  {
    remaining := spare;
    ghost var rounds := 0;
    while remaining >= 1
      invariant remaining >= 0 && rounds >= 0
      invariant rows[1] == old(rows[1]) && rows[3] == old(rows[3]) && rows[4] == old(rows[4])
      invariant old(rows[0]) < 0 ==> rows[0] == old(rows[0]) && rows[2] == old(rows[2]) && remaining == spare
      invariant old(rows[0]) >= 0 ==> rows[0] >= old(rows[0])
      invariant old(rows[0]) >= 0 && old(rows[2]) < 0 ==>
          rows[0] == old(rows[0]) + spare - remaining && rows[2] == old(rows[2])
      invariant old(rows[2]) >= 0 ==>
          if spare < 3 && remaining == 0 then
            rows[0] == old(rows[0]) + Grown(spare).0 && rows[2] == old(rows[2]) + Grown(spare).1
          else
            && rows[0] == old(rows[0]) + rounds && rows[2] == old(rows[2]) + rounds
            && remaining == spare - 3 * rounds && (rounds == 0 || remaining >= 3 || remaining == 0)
      decreases remaining
    {
      var grew := false;
      if remaining >= 2 && rows[2] >= 0 {
        rows[2] := rows[2] + 1;
        remaining := remaining - 2;
        grew := true;
      }
      if remaining >= 1 && rows[0] >= 0 {
        rows[0] := rows[0] + 1;
        remaining := remaining - 1;
        grew := true;
      }
      if !grew {
        break;
      }
      rounds := rounds + 1;
      if remaining < 3 {
        break;
      }
    }
  }

  /** Priorities 6 and 7. */
  method UseOddLines(rows: array<int>, spare: int)
    requires rows.Length == 5 && spare >= 0
    modifies rows
    ensures rows[0] == old(rows[0]) && rows[2] == old(rows[2])
    ensures rows[3] == old(rows[3]) + if spare >= 1 && old(rows[3]) >= 0 then 1 else 0
    ensures var odd := if spare >= 1 && old(rows[3]) >= 0 then spare - 1 else spare;
            if odd >= 2 && old(rows[4]) >= 0 then
              rows[4] == old(rows[4]) + 1 && rows[1] == old(rows[1]) + odd - 2
            else
              rows[4] == old(rows[4]) && rows[1] == old(rows[1]) + odd
  {
    var remaining := spare;
    if remaining >= 1 && rows[3] >= 0 {
      rows[3] := rows[3] + 1;
      remaining := remaining - 1;
    }
    if remaining >= 2 && rows[4] >= 0 {
      rows[4] := rows[4] + 1;
      remaining := remaining - 2;
    }
    if remaining > 0 {
      rows[1] := rows[1] + remaining;
    }
  }

  // ---------------------------------------------------------------- what the budget promises

  /** The dashboard never takes more lines than there are, and as soon as the needed Request Context
      fits it takes them all and Request Context gets at least what it needs. */
  lemma BudgetIsSpentExactly(height: int, needed: int)
    requires needed >= 0
    ensures height >= 0 ==> Cost(Rows(height, needed)) <= height
    ensures height >= needed + 2 ==> Cost(Rows(height, needed)) == height && Rows(height, needed)[1] >= needed
  {
    if height >= needed + 11 {
      RoomyIsSpentExactly(height - needed - 11, needed);
    }
  }

  lemma RoomyIsSpentExactly(spare: int, needed: int)
    requires needed >= 0 && spare >= 0
    ensures Cost(Roomy(spare, needed)) == needed + 11 + spare && Roomy(spare, needed)[1] >= needed
  {
    if spare >= 1 {
      GrownIsSpentExactly(spare);
    }
  }

  lemma GrownIsSpentExactly(spare: int)
    requires spare >= 0
    ensures var g := Grown(spare); g.0 >= 0 && g.1 >= 0 && g.2 >= 0 && g.0 + 2 * g.1 + g.2 == spare
  {
  }

  predicate Shown(rows: seq<int>, row: nat)
    requires row < |rows|
  {
    rows[row] >= 0
  }

  /** Below that only Request Context is shown, as soon as there are two lines, with the most lines that fit
      but no more than five. */
  lemma ClippedContextGetsWhatFits(height: int, needed: int)
    requires needed >= 0 && height < needed + 2
    ensures var rows := Rows(height, needed);
            && (forall row: nat :: row < 5 && row != 1 ==> !Shown(rows, row))
            && (Shown(rows, 1) <==> height >= 2)
            && (Shown(rows, 1) ==> rows[1] <= 5 && Cost(rows) <= height && (rows[1] == 5 || Cost(rows) == height))
  {
  }

  /** Lower rows appear in order of priority once the full baseline fits: Protocol waits for three
      lines of Latency, Endpoints for Protocol, and the shells are never given up. */
  lemma LowerRowsWait(height: int, needed: int)
    requires needed >= 0 && height >= needed + 11
    ensures var rows := Rows(height, needed);
            && Shown(rows, 0) && Shown(rows, 1) && Shown(rows, 2)
            && (Shown(rows, 3) ==> rows[2] >= 3)
            && (Shown(rows, 4) ==> Shown(rows, 3))
  {
  }

  /** Latency is shown exactly when the full baseline fits: once its shell is dropped too few lines are
      left to restore it at full cost. */
  lemma LatencyIsNeverRestored(height: int, needed: int)
    requires needed >= 0
    ensures Shown(Rows(height, needed), 2) <==> height >= needed + 11
    ensures height < needed + 11 ==> height - RowCost(1, needed) < RowCost(0, 1) + RowCost(2, 1)
  {
    if height >= needed + 11 {
      LowerRowsWait(height, needed);
    }
  }

  /** On shorter terminals the order breaks: exactly at these heights Protocol is shown although
      Latency has fewer than three lines (it is not shown at all). */
  lemma ProtocolWithoutLatency(height: int, needed: int)
    requires needed >= 0
    ensures var rows := Rows(height, needed);
            Shown(rows, 3) && rows[2] < 3 <==> height - needed in {4, 5, 6, 7, 10}
  {
    if height >= needed + 11 {
      LowerRowsWait(height, needed);
    }
  }

  /** A row that is shown disappears when the terminal grows by a line at exactly two heights: where
      Summary comes in alone, and where the full baseline does. Both times it is Protocol that goes. */
  lemma TallerTerminalHidesARow(height: int, needed: int)
    requires needed >= 0
    ensures var rows, taller := Rows(height, needed), Rows(height + 1, needed);
            && ((exists row: nat :: row < 5 && Shown(rows, row) && !Shown(taller, row)) <==> height - needed in {7, 10})
            && (height - needed in {7, 10} ==> Shown(rows, 3) && !Shown(taller, 3))
  {
    if height >= needed + 11 {
      LatencyGivesWayOnce(height, needed);
      LowerRowsWait(height, needed);
      LowerRowsWait(height + 1, needed);
    } else {
      ShortTerminals(height, needed);
    }
  }

  lemma ShortTerminals(height: int, needed: int)
    requires needed >= 0 && height < needed + 11
    ensures var rows, taller := Rows(height, needed), Rows(height + 1, needed);
            && (Shown(rows, 3) && !Shown(taller, 3) <==> height - needed in {7, 10})
            && (Shown(rows, 0) ==> Shown(taller, 0)) && (Shown(rows, 1) ==> Shown(taller, 1))
            && !Shown(rows, 2) && !Shown(rows, 4)
  {
  }

  /** Once the baseline fits, a row that is shown stays shown when the terminal grows by a line, and
      Latency never shrinks, except at one height: where Endpoints comes in and takes its line. */
  lemma LatencyGivesWayOnce(height: int, needed: int)
    requires needed >= 0 && height >= needed + 11
    ensures var rows, taller := Rows(height, needed), Rows(height + 1, needed);
            && (taller[2] < rows[2] <==> height == needed + 23)
            && (Shown(rows, 3) ==> Shown(taller, 3))
            && (Shown(rows, 4) ==> Shown(taller, 4))
            && (height == needed + 23 ==> !Shown(rows, 4) && Shown(taller, 4))
  {
    RoomyLatency(height - needed - 11, needed);
    RoomyLatency(height - needed - 10, needed);
  }

  lemma RoomyLatency(spare: int, needed: int)
    requires spare >= 0
    ensures var rows := Roomy(spare, needed);
            && (spare >= 13 ==> rows[2] == if spare == 15 then 4 else 3 + (spare - 13) / 3)
            && (spare == 12 ==> rows[2] == 4)
            && (1 <= spare <= 11 ==> rows[2] == if spare <= 7 then (spare - 1) / 2 else if spare == 11 then 4 else 3)
            && (Shown(rows, 3) <==> spare >= 9) && (Shown(rows, 4) <==> spare >= 13)
  {
  }
}
