/** The list transformations that the search and booking actions apply to a
    history slot. A history is a list of store keys, and `None` marks an entry
    whose form is still being filled in. Selections are lists of positions into
    it. */
module History {
  import opened Wrappers
  import opened Keys
  import opened Seqs
  import opened KvStore
  import opened Records
  import MiscUtils

  type Entries = seq<Option<Key>>

  /** The key-value store the actions share, with its search and booking maps. */
  type Kv = Store

  /** `history.copy(); history.append(None)`: a new placeholder goes at the end.
      The action that opens it selects `[len(history) - 1]`, which is `|history|`. */
  function Open(history: Entries): (r: Entries)
    ensures |r| == |history| + 1
    ensures r[..|history|] == history
    ensures r[|history|].None?
  {
    history + [None]
  }

  /** `history[idx] = key` on a copy, with Python's indexing rules. */
  function Fill(history: Entries, idx: int, key: Key): (r: Result<Entries>)
    ensures r.Err? <==> PyIndex(history, idx).Err?
    ensures r.Err? ==> r.error == IndexError
    ensures r.Ok? ==> var p := PyPosition(|history|, idx);
              && |r.value| == |history|
              && r.value[p] == Some(key)
              && forall j :: 0 <= j < |history| && j != p ==> r.value[j] == history[j]
  {
    if PyIndex(history, idx).Err? then Err(IndexError)
    else Ok(history[PyPosition(|history|, idx) := Some(key)])
  }

  /** `history.pop(idx)` on a copy, with Python's indexing rules. */
  function Remove(history: Entries, idx: int): (r: Result<Entries>)
    ensures r.Err? <==> PyIndex(history, idx).Err?
    ensures r.Err? ==> r.error == IndexError
    ensures r.Ok? ==> var p := PyPosition(|history|, idx);
              && |r.value| == |history| - 1
              && (forall j :: 0 <= j < p ==> r.value[j] == history[j])
              && (forall j :: p <= j < |r.value| ==> r.value[j] == history[j + 1])
  {
    if PyIndex(history, idx).Err? then Err(IndexError)
    else
      var p := PyPosition(|history|, idx);
      Ok(history[..p] + history[p + 1..])
  }

  /** `set(selected)`. */
  function AsSet(selected: seq<int>): (r: set<int>)
    ensures forall i :: i in r <==> i in selected
  {
    set i | i in selected
  }

  /** `[e for idx, e in enumerate(history) if idx not in set(selected)]`. */
  function Keep<T>(history: seq<T>, selected: seq<int>): (r: seq<T>)
    ensures |r| <= |history|
  {
    DropIndices(history, AsSet(selected))
  }

  /** Deleting keeps exactly the entries at the unselected positions, each
      once and in their original order. */
  lemma KeepIsExact<T>(history: seq<T>, selected: seq<int>)
    ensures var ps := KeptPositions(|history|, AsSet(selected));
            var r := Keep(history, selected);
            && |r| == |ps|
            && (forall k :: 0 <= k < |r| ==> r[k] == history[ps[k]] && ps[k] !in selected)
            && (forall i :: 0 <= i < |history| && i !in selected ==> i in ps)
            && (forall a, b :: 0 <= a < b < |ps| ==> ps[a] < ps[b])
  {
    DropIndicesKeepsOrder(history, AsSet(selected));
  }

  /** An empty selection deletes nothing, and selecting every position
      deletes everything. */
  lemma KeepExtremes<T>(history: seq<T>)
    ensures Keep(history, []) == history
    ensures Keep(history, Range(|history|)) == []
  {
    DropIndicesExtremes(history);
    assert AsSet([]) == {};
    var all := Range(|history|);
    forall i | 0 <= i < |history| ensures i in AsSet(all) <==> i in Positions(|history|) {
      assert all[i] == i;
      assert i in all;
    }
    DropIndicesOutside(history, AsSet(Range(|history|)), Positions(|history|));
  }

  /** Cancelling the placeholder that was just opened restores the history,
      and filling it appends the new key. */
  lemma OpenThenCancelOrFill(history: Entries, key: Key)
    ensures Remove(Open(history), |history|) == Ok(history)
    ensures Fill(Open(history), |history|, key) == Ok(history + [Some(key)])
  {
    var extended := Open(history);
    assert extended[..|history|] == history;
    assert extended[|history| + 1..] == [];
    assert PyPosition(|extended|, |history|) == |history|;
    assert history + [] == history;
    assert extended[|history| := Some(key)] == history + [Some(key)];
  }

  /** The zero/one/multiple label the counting actions store. */
  function CountLabel(n: nat): (r: string)
    ensures r == "zero" <==> n == 0
    ensures r == "one" <==> n == 1
    ensures r == "multiple" <==> n >= 2
  {
    if n == 0 then "zero" else if n == 1 then "one" else "multiple"
  }

  /** What `resolve_mentions` hands back: the positions the user referred to
      and the complaints about references that could not be resolved. The
      routine itself is not part of this model, so its outcome is an input. */
  datatype Resolution = Resolution(selected: seq<int>, errors: seq<string>)

  /** The message uttered when some references could not be resolved. */
  function Apology(errors: seq<string>): (r: string)
    ensures |r| >= 13 && r[..11] == "Sorry, but " && r[|r| - 2..] == ".\n"
  {
    "Sorry, but " + MiscUtils.Join(MiscUtils.Wrap(errors), ", ", Some(" and ")) + ".\n"
  }

  /** `history[selected[0]]`: the entry the first selected position points
      at, with Python's indexing rules for both subscripts. */
  function SelectedEntry(history: Entries, selected: seq<int>): (r: Result<Option<Key>>)
    ensures r.Err? <==> |selected| == 0 || PyIndex(history, selected[0]).Err?
    ensures r.Err? ==> r.error == IndexError
    ensures r.Ok? ==> r.value == history[PyPosition(|history|, selected[0])]
  {
    var idx :- PyIndex(selected, 0);
    PyIndex(history, idx)
  }

  /** `store[key]` for a history entry: a placeholder raises KeyError like an
      unknown key does. */
  function Lookup<V>(store: map<Key, V>, entry: Option<Key>): (r: Result<V>)
    ensures r.Ok? <==> entry.Some? && entry.value in store
    ensures r.Ok? ==> r.value == store[entry.value]
    ensures r.Err? ==> r.error == KeyError
  {
    if entry.Some? && entry.value in store then Ok(store[entry.value]) else Err(KeyError)
  }
}
