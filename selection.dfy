/** The selection rules of components/simulation-comparison.tsx: the ordered
    list of selected run ids (toggled with first-in first-out eviction,
    lines 35-46), the click guard on a result card (lines 796-798, 810), the
    results the selection picks out (lines 48-50) and the guard that opens the
    comparison (lines 159-167). */
module Selection {
  import opened Types

  /** No id occurs twice. */
  predicate NoDuplicates(ids: seq<string>)
  {
    forall i, j :: 0 <= i < j < |ids| ==> ids[i] != ids[j]
  }

  /** `prev.filter((simId) => simId !== id)`. */
  function Without(ids: seq<string>, id: string): (r: seq<string>)
    ensures id !in r
    ensures forall x :: x in r <==> x in ids && x != id
    ensures |r| <= |ids|
    ensures id !in ids ==> r == ids
  {
    if ids == [] then []
    else if ids[0] == id then Without(ids[1..], id)
    else [ids[0]] + Without(ids[1..], id)
  }

  /** `[...prev.slice(1), id]`: `slice(1)` of an empty list is empty. */
  function DropOldest(ids: seq<string>): seq<string>
  {
    if ids == [] then [] else ids[1..]
  }

  /** `toggleSimulationSelection(id)` with the current `maxSelections`. */
  function Toggle(prev: seq<string>, id: string, maxSelections: int): seq<string>
  {
    if id in prev then Without(prev, id)
    else if |prev| >= maxSelections then DropOldest(prev) + [id]
    else prev + [id]
  }

  /** Deselecting takes exactly that id out and keeps the others in order. */
  lemma {:induction false} WithoutPosition(ids: seq<string>, id: string, k: nat)
    requires NoDuplicates(ids) && k < |ids| && ids[k] == id
    ensures Without(ids, id) == ids[..k] + ids[k + 1..]
    decreases |ids|
  {
    if k == 0 {
      assert id !in ids[1..] by {
        forall j | 0 <= j < |ids[1..]|
          ensures ids[1..][j] != id
        {
          assert ids[1..][j] == ids[1 + j];
        }
      }
      assert ids[..0] + ids[1..] == ids[1..];
    } else {
      assert ids[0] != id;
      assert NoDuplicates(ids[1..]) by {
        forall i, j | 0 <= i < j < |ids[1..]|
          ensures ids[1..][i] != ids[1..][j]
        {
          assert ids[1..][i] == ids[1 + i] && ids[1..][j] == ids[1 + j];
        }
      }
      WithoutPosition(ids[1..], id, k - 1);
      assert ids[1..][..k - 1] == ids[1..k];
      assert ids[1..][k..] == ids[k + 1..];
      assert [ids[0]] + ids[1..k] == ids[..k];
    }
  }

  /** A selected id is removed, the others keeping their relative order. */
  lemma ToggleSelected(prev: seq<string>, id: string, maxSelections: int, k: nat)
    requires NoDuplicates(prev) && k < |prev| && prev[k] == id
    ensures Toggle(prev, id, maxSelections) == prev[..k] + prev[k + 1..]
  {
    WithoutPosition(prev, id, k);
  }

  /** An unselected id below capacity goes to the end; at capacity the oldest
      selection is dropped to make room, and the length stays the same. */
  lemma ToggleUnselected(prev: seq<string>, id: string, maxSelections: int)
    requires id !in prev
    ensures |prev| < maxSelections ==> Toggle(prev, id, maxSelections) == prev + [id]
    ensures |prev| >= maxSelections && prev != [] ==>
      Toggle(prev, id, maxSelections) == prev[1..] + [id] &&
      |Toggle(prev, id, maxSelections)| == |prev|
  {
  }

  /** Toggling keeps the list free of duplicates, and within a positive bound
      it stays within the bound. */
  lemma ToggleInvariant(prev: seq<string>, id: string, maxSelections: int)
    requires NoDuplicates(prev)
    ensures NoDuplicates(Toggle(prev, id, maxSelections))
    ensures maxSelections >= 1 && |prev| <= maxSelections ==> |Toggle(prev, id, maxSelections)| <= maxSelections
  {
    var r := Toggle(prev, id, maxSelections);
    if id in prev {
      var k :| 0 <= k < |prev| && prev[k] == id;
      WithoutPosition(prev, id, k);
      forall i, j | 0 <= i < j < |r|
        ensures r[i] != r[j]
      {
        var pi := if i < k then i else i + 1;
        var pj := if j < k then j else j + 1;
        assert r[i] == prev[pi] && r[j] == prev[pj];
      }
    } else {
      var kept := DropOldest(prev);
      assert forall i :: 0 <= i < |kept| ==> kept[i] == prev[|prev| - |kept| + i];
      assert r == if |prev| >= maxSelections then kept + [id] else prev + [id];
    }
  }

  /** Selecting an unselected id below capacity and toggling it again gives
      back the original selection. */
  lemma ToggleTwice(prev: seq<string>, id: string, maxSelections: int)
    requires id !in prev && |prev| < maxSelections
    ensures Toggle(Toggle(prev, id, maxSelections), id, maxSelections) == prev
  {
    WithoutAppended(prev, id);
  }

  lemma {:induction false} WithoutAppended(ids: seq<string>, id: string)
    requires id !in ids
    ensures Without(ids + [id], id) == ids
    decreases |ids|
  {
    if ids == [] {
      assert [] + [id] == [id];
      assert Without([id], id) == Without([id][1..], id);
    } else {
      assert (ids + [id])[1..] == ids[1..] + [id];
      WithoutAppended(ids[1..], id);
    }
  }

  /** A card's click handler: a selected card or a selectable one (`canSelect`)
      toggles; any other click does nothing. */
  function Click(prev: seq<string>, id: string, maxSelections: int): (r: seq<string>)
    ensures id in prev ==> r == Without(prev, id)
    ensures id !in prev && |prev| < maxSelections ==> r == prev + [id]
    ensures id !in prev && |prev| >= maxSelections ==> r == prev
  {
    var isSelected := id in prev;
    var canSelect := !isSelected && |prev| < maxSelections;
    if canSelect || isSelected then Toggle(prev, id, maxSelections) else prev
  }

  /** Through clicks the eviction branch is never taken: the selection grows
      only below the bound and keeps no duplicates. */
  lemma ClicksRespectBound(prev: seq<string>, id: string, maxSelections: int)
    requires NoDuplicates(prev) && |prev| <= maxSelections
    ensures NoDuplicates(Click(prev, id, maxSelections))
    ensures |Click(prev, id, maxSelections)| <= maxSelections
    ensures forall x :: x in prev && x != id ==> x in Click(prev, id, maxSelections)
  {
    if id in prev || |prev| < maxSelections {
      ToggleInvariant(prev, id, maxSelections);
    }
  }

  /** A lowered bound does not trim the selection: a click on an unselected
      card is refused and the list keeps its length. */
  lemma LoweredBoundKeepsSelection(prev: seq<string>, id: string, maxSelections: int)
    requires id !in prev && |prev| > maxSelections
    ensures Click(prev, id, maxSelections) == prev
    ensures |prev| > 0 ==> |Toggle(prev, id, maxSelections)| == |prev|
  {
  }

  /** `getSelectedSimulations`: the results whose id is selected, in the
      order of the results. */
  function SelectedResults(results: seq<SimulationResult>, selected: seq<string>): (r: seq<SimulationResult>)
    ensures |r| <= |results|
    ensures forall x :: x in r <==> x in results && x.id in selected
    ensures IsSubsequence(r, results)
  {
    if results == [] then []
    else if results[0].id in selected
    then [results[0]] + SelectedResults(results[1..], selected)
    else SelectedResults(results[1..], selected)
  }

  /** `sub` is `full` with some elements left out, the rest in order. */
  predicate IsSubsequence(sub: seq<SimulationResult>, full: seq<SimulationResult>)
    decreases |full|
  {
    if sub == [] then true
    else if full == [] then false
    else if sub[0] == full[0] then IsSubsequence(sub[1..], full[1..])
    else IsSubsequence(sub, full[1..])
  }

  /** Picking works result by result: it distributes over concatenation. */
  lemma {:induction false} SelectedResultsAppend(a: seq<SimulationResult>, b: seq<SimulationResult>, selected: seq<string>)
    ensures SelectedResults(a + b, selected) == SelectedResults(a, selected) + SelectedResults(b, selected)
    decreases |a|
  {
    if a == [] {
      assert [] + b == b;
    } else {
      assert (a + b)[1..] == a[1..] + b;
      SelectedResultsAppend(a[1..], b, selected);
    }
  }

  /** With nothing selected nothing is picked; with every id selected, everything. */
  lemma {:induction false} SelectedResultsExtremes(results: seq<SimulationResult>, selected: seq<string>)
    ensures selected == [] ==> SelectedResults(results, selected) == []
    ensures (forall i :: 0 <= i < |results| ==> results[i].id in selected) ==>
      SelectedResults(results, selected) == results
    decreases |results|
  {
    if results != [] {
      SelectedResultsExtremes(results[1..], selected);
      assert [results[0]] + results[1..] == results;
      if forall i :: 0 <= i < |results| ==> results[i].id in selected {
        assert forall i :: 0 <= i < |results[1..]| ==> results[1..][i] == results[i + 1];
      }
    }
  }

  /** `openComparisonModal`: the modal opens only with two or more selections;
      otherwise it stays as it was (a toast explains why). */
  function OpenComparison(selected: seq<string>, shown: bool): (r: bool)
    ensures |selected| >= 2 ==> r
    ensures |selected| < 2 ==> r == shown
  {
    if |selected| < 2 then shown else true
  }

  /** The button is enabled exactly when the modal would open (line 780). */
  function CompareEnabled(selected: seq<string>): (r: bool)
    ensures r <==> OpenComparison(selected, false)
  {
    !(|selected| < 2)
  }
}
