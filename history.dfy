/**
 * The undo/redo history of v1.2.25 (the same in v1.1.28, which lacks the
 * share-id detach). Snapshots are the serialized application state, kept
 * as opaque text and compared by equality.
 */
module History {
  import opened Wrappers

  /** `HISTORY_MAX`: the number of snapshots kept. */
  const HistoryMax := 50

  /**
   * The stack after recording `snap` at `index`: everything after `index`
   * (the redo branch) is dropped, `snap` is appended, and the oldest entry
   * is evicted when the stack would exceed `HistoryMax`.
   */
  function Recorded(stack: seq<string>, index: int, snap: string): (r: seq<string>)
    requires -1 <= index < |stack| <= HistoryMax
    ensures |r| == if index + 2 > HistoryMax then HistoryMax else index + 2
    ensures 1 <= |r| <= HistoryMax && r[|r| - 1] == snap
    ensures forall i :: 0 <= i < |r| - 1 ==> r[i] == stack[index + 2 - |r| + i]
  {
    var kept := stack[..index + 1] + [snap];
    if |kept| > HistoryMax then kept[1..] else kept
  }

  /** Whether `pushHistory` leaves the history alone. */
  predicate PushIgnored(stack: seq<string>, index: int, quiet: bool, snap: Option<string>)
  {
    quiet || snap.None? || snap.value == "" || (0 <= index < |stack| && stack[index] == snap.value)
  }

  class History {
    var stack: seq<string>
    var index: int
    /** Set while a snapshot is being restored, so that restoring does not record. */
    var quiet: bool
    /** `SHARE_ID_ATTACHED`: the page was opened from a `?id=` short link. */
    var shareIdAttached: bool

    ghost predicate Valid()
      reads this
    {
      |stack| <= HistoryMax && -1 <= index < |stack| &&
      (index == -1 <==> stack == []) &&
      forall i :: 0 <= i < |stack| ==> stack[i] != ""
    }

    /** `canUndo()` */
    predicate CanUndo() reads this { index > 0 }

    /** `canRedo()` */
    predicate CanRedo() reads this { index < |stack| - 1 }

    constructor ()
      ensures Valid() && stack == [] && index == -1 && !quiet && !shareIdAttached
    {
      stack := [];
      index := -1;
      quiet := false;
      shareIdAttached := false;
    }

    /** `pushHistory()`; `snap` is `snapshotState()`, `None` when serialization failed. */
    method Push(snap: Option<string>)
      requires Valid()
      modifies this
      ensures Valid()
      ensures !shareIdAttached && quiet == old(quiet)
      ensures PushIgnored(old(stack), old(index), old(quiet), snap) ==>
        stack == old(stack) && index == old(index)
      ensures !PushIgnored(old(stack), old(index), old(quiet), snap) ==>
        stack == Recorded(old(stack), old(index), snap.value) && index == |stack| - 1
    {
      // detachShareIdFromUrl() runs before the quiet check
      shareIdAttached := false;
      if quiet { return; }
      if snap.None? || snap.value == "" { return; }
      if 0 <= index < |stack| && stack[index] == snap.value { return; }
      var kept := stack[..index + 1] + [snap.value];
      if |kept| > HistoryMax {
        kept := kept[1..];
      }
      stack := kept;
      index := |stack| - 1;
    }

    /**
     * `applySnapshot(snap)`: nothing for an empty snapshot; otherwise the
     * state is rebuilt from it with `quiet` raised, and `quiet` is lowered
     * again afterwards. Returns the snapshot that was restored.
     */
    method ApplySnapshot(snap: string) returns (restored: Option<string>)
      requires Valid()
      modifies this`quiet
      ensures Valid()
      ensures snap == "" ==> restored == None && quiet == old(quiet)
      ensures snap != "" ==> restored == Some(snap) && !quiet
    {
      if snap == "" {
        return None;
      }
      quiet := true;
      // the application state is rebuilt from `snap` here
      restored := Some(snap);
      quiet := false;
    }

    /** `undo()` */
    method Undo() returns (restored: Option<string>)
      requires Valid()
      modifies this`index, this`quiet
      ensures Valid()
      ensures old(CanUndo()) ==>
        index == old(index) - 1 && restored == Some(stack[index]) && !quiet
      ensures !old(CanUndo()) ==> index == old(index) && restored == None && quiet == old(quiet)
    {
      restored := None;
      if index > 0 {
        index := index - 1;
        restored := ApplySnapshot(stack[index]);
      }
    }

    /** `redo()` */
    method Redo() returns (restored: Option<string>)
      requires Valid()
      modifies this`index, this`quiet
      ensures Valid()
      ensures old(CanRedo()) ==>
        index == old(index) + 1 && restored == Some(stack[index]) && !quiet
      ensures !old(CanRedo()) ==> index == old(index) && restored == None && quiet == old(quiet)
    {
      restored := None;
      if index < |stack| - 1 {
        index := index + 1;
        restored := ApplySnapshot(stack[index]);
      }
    }
  }

  /** Push S0, push S1, undo, redo: the history is back on S1 with S0 below it. */
  method PushUndoRedo(s0: string, s1: string) returns (h: History, undone: Option<string>, redone: Option<string>)
    requires s0 != "" && s1 != "" && s0 != s1
    ensures h.Valid() && h.stack == [s0, s1] && h.index == 1
    ensures undone == Some(s0) && redone == Some(s1)
  {
    h := new History();
    h.Push(Some(s0));
    h.Push(Some(s1));
    undone := h.Undo();
    redone := h.Redo();
  }
}
