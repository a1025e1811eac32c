/** The player's playlist position: Fisher-Yates shuffle order, next and previous in each
    playback mode, and the position search every track start repeats. */
module PlaylistOrder {

  const MAX_TRACK_FILES: nat := 999
  /** SIZE_MAX: the shuffle order has not been entered yet. */
  const NOT_STARTED: nat := 0xFFFF_FFFF
  const RANDOM_LIMIT: nat := 0x1_0000_0000

  datatype Mode = Sequential | SingleRepeat | Shuffle

  /** Every index below the length, exactly once. */
  ghost predicate IsPermutation(order: seq<nat>) {
    && (forall i :: 0 <= i < |order| ==> order[i] < |order|)
    && (forall i, j :: 0 <= i < j < |order| ==> order[i] != order[j])
    && (forall track :: 0 <= track < |order| ==> track in order)
  }

  /** What next and previous depend on. */
  datatype View = View(order: seq<nat>, index: nat, position: nat, mode: Mode)
  {
    ghost predicate Valid() {
      && IsPermutation(order) && 0 < |order| <= MAX_TRACK_FILES
      && index < |order| && (position < |order| || position == NOT_STARTED)
    }

    /** The current track is the one the shuffle position names. */
    ghost predicate InSync() {
      Valid() && position < |order| && order[position] == index
    }

    /** Sequential neighbours wrap around. */
    function After(): nat { if index + 1 < |order| then index + 1 else 0 }
    function Before(): int { if index > 0 then index - 1 else |order| - 1 }
  }

  /** The index next goes to and the shuffle position it leaves. */
  ghost function Next(v: View, isManual: bool): (nat, nat)
    requires v.Valid()
  {
    match v.mode
    case Sequential => (v.After(), v.position)
    case SingleRepeat => (if isManual then v.After() else v.index, v.position)
    case Shuffle =>
      if |v.order| == 1 then (0, v.position)
      else
        var position := if v.position == NOT_STARTED || v.position + 1 >= |v.order| then 0 else v.position + 1;
        (v.order[position], position)
  }

  ghost function Prev(v: View): (nat, nat)
    requires v.Valid()
  {
    if v.mode == Shuffle && |v.order| > 1 then
      var position := if v.position == NOT_STARTED || v.position == 0 then |v.order| - 1 else v.position - 1;
      (v.order[position], position)
    else (v.Before(), v.position)
  }

  /** A successful start: the track becomes current, and in shuffle mode the position is
      looked up again. */
  ghost predicate Started(v: View, index: nat, after: View)
    requires v.Valid() && index < |v.order|
  {
    && after == v.(index := index, position := after.position)
    && (v.mode != Shuffle ==> after.position == v.position)
    && (v.mode == Shuffle ==> after.position < |v.order| && v.order[after.position] == index)
  }

  ghost predicate NextStarted(v: View, isManual: bool, after: View)
    requires v.Valid()
  {
    var (index, position) := Next(v, isManual);
    index < |v.order| && Started(v.(position := position), index, after)
  }

  ghost predicate PrevStarted(v: View, after: View)
    requires v.Valid()
  {
    var (index, position) := Prev(v);
    index < |v.order| && Started(v.(position := position), index, after)
  }

  // ----- The firmware's state -----

  class Playlist {
    const storage: array<nat>
    var count: nat
    var index: nat
    var position: nat
    var mode: Mode

    ghost predicate Valid()
      reads this, storage
    {
      && storage.Length == MAX_TRACK_FILES
      && count <= MAX_TRACK_FILES
      && (count > 0 ==> Order().Valid())
    }

    ghost function Order(): View
      requires count <= storage.Length
      reads this, storage
    {
      View(storage[..count], index, position, mode)
    }

    constructor ()
      ensures Valid() && count == 0 && mode == Sequential && fresh(storage)
    {
      storage := new nat[MAX_TRACK_FILES](_ => 0);
      count, index, position, mode := 0, 0, 0, Sequential;
    }

    /** A random permutation of the playlist that does not open with the current track. */
    method BuildShuffleOrder()
      requires storage.Length == MAX_TRACK_FILES && count <= MAX_TRACK_FILES
      modifies storage
      ensures IsPermutation(storage[..count])
      ensures count > 1 ==> storage[0] != index
    {
      if count == 0 {
        return;
      }
      FillInOrder();
      var i := count - 1;
      while i > 0
        invariant 0 <= i < count
        invariant IsPermutation(storage[..count])
      {
        var random: nat :| random < RANDOM_LIMIT;
        Swap(i, random % (i + 1));
        i := i - 1;
      }
      if count > 1 && storage[0] == index {
        var random: nat :| random < RANDOM_LIMIT;
        var j := 1 + random % (count - 1);
        assert storage[..count][0] != storage[..count][j];
        Swap(0, j);
      }
    }

    method FillInOrder()
      requires count <= storage.Length
      modifies storage
      ensures IsPermutation(storage[..count])
    {
      for i := 0 to count
        invariant forall k :: 0 <= k < i ==> storage[k] == k
      {
        storage[i] := i;
      }
      forall track | 0 <= track < count ensures track in storage[..count] {
        assert storage[..count][track] == track;
      }
    }

    method Swap(i: nat, j: nat)
      requires i < count && j < count && count <= storage.Length
      requires IsPermutation(storage[..count])
      modifies storage
      ensures IsPermutation(storage[..count])
      ensures storage[..count] == old(storage[..count])[i := old(storage[j])][j := old(storage[i])]
    {
      ghost var before := storage[..count];
      var tmp := storage[i];
      storage[i] := storage[j];
      storage[j] := tmp;
      ghost var after := storage[..count];
      assert after == before[i := before[j]][j := before[i]];
      SwapKeepsPermutation(before, i, j);
    }

    method ScanPlaylist(metadataTrackCount: nat)
      requires Valid()
      modifies this`count, this`index, this`position, storage
      ensures Valid() && index == 0
      ensures count == if metadataTrackCount > MAX_TRACK_FILES then 0 else metadataTrackCount
      ensures count > 0 ==> position == NOT_STARTED
      ensures count > 1 ==> storage[0] != index
    {
      count, position, index := 0, 0, 0;
      if metadataTrackCount == 0 || metadataTrackCount > MAX_TRACK_FILES {
        return;
      }
      count := metadataTrackCount;
      BuildShuffleOrder();
      position := NOT_STARTED;
    }

    /** Entering shuffle mode reshuffles; the first entry differs from the current track. */
    method SetPlaybackMode(newMode: Mode)
      requires Valid()
      modifies this`mode, this`position, storage
      ensures Valid() && mode == newMode
      ensures newMode != Shuffle ==> position == old(position) && storage[..] == old(storage[..])
      ensures newMode == Shuffle ==> position == NOT_STARTED && (count > 1 ==> storage[0] != index)
    {
      mode := newMode;
      if newMode == Shuffle {
        position := NOT_STARTED;
        BuildShuffleOrder();
      }
    }

    method NextIndex(isManual: bool) returns (next: nat)
      requires Valid()
      modifies this`position
      ensures Valid()
      ensures count == 0 ==> next == 0 && position == old(position)
      ensures count > 0 ==> next < count && (next, position) == Next(old(Order()), isManual)
    {
      if count == 0 {
        return 0;
      }
      match mode {
        case SingleRepeat =>
          if isManual {
            return if index + 1 < count then index + 1 else 0;
          }
          return index;
        case Shuffle =>
          if count == 1 {
            return 0;
          }
          var nextPos := 0;
          if position != NOT_STARTED && position + 1 < count {
            nextPos := position + 1;
          }
          position := nextPos;
          assert storage[..count][position] < count;
          return storage[position];
        case Sequential =>
          return if index + 1 < count then index + 1 else 0;
      }
    }

    method PrevIndex() returns (prev: nat)
      requires Valid()
      modifies this`position
      ensures Valid()
      ensures count == 0 ==> prev == 0 && position == old(position)
      ensures count > 0 ==> prev < count && (prev, position) == Prev(old(Order()))
    {
      if count == 0 {
        return 0;
      }
      if mode == Shuffle && count > 1 {
        var prevPos := count - 1;
        if position != NOT_STARTED && position != 0 {
          prevPos := position - 1;
        }
        position := prevPos;
        assert storage[..count][position] < count;
        return storage[position];
      }
      return if index > 0 then index - 1 else count - 1;
    }

    /** The playlist part of a successful track start. */
    method StartTrack(track: nat)
      requires Valid() && track < count
      modifies this`index, this`position
      ensures Valid()
      ensures Started(old(Order()), track, Order())
    {
      index := track;
      if mode == Shuffle {
        var i := 0;
        assert track in storage[..count];
        while i < count && storage[i] != track
          invariant i <= count && track !in storage[..i]
        {
          i := i + 1;
        }
        position := i;
      }
    }
  }

  lemma SwapKeepsPermutation(order: seq<nat>, i: nat, j: nat)
    requires IsPermutation(order) && i < |order| && j < |order|
    ensures IsPermutation(order[i := order[j]][j := order[i]])
  {
    var after := order[i := order[j]][j := order[i]];
    forall track | 0 <= track < |order| ensures track in after {
      assert track in order;
      var k :| 0 <= k < |order| && order[k] == track;
      var k' := if k == i then j else if k == j then i else k;
      assert after[k'] == track;
    }
  }

  // ----- Runs of next and previous -----

  /** The position `k` places after `position`, cyclically, for at most one turn. */
  function Forward(position: nat, k: nat, n: nat): int {
    if position + k < n then position + k else position + k - n
  }

  /** The position next counts from: an order not yet entered is about to open. */
  function Base(v: View): int {
    if v.position == NOT_STARTED then |v.order| - 1 else v.position
  }

  lemma PermutationInjective(order: seq<nat>, i: nat, j: nat)
    requires IsPermutation(order) && i < |order| && j < |order| && order[i] == order[j]
    ensures i == j
  {
    if i < j {
      assert false;
    } else if j < i {
      assert false;
    }
  }

  /** In shuffle mode, next moves one position on, cyclically, and start keeps it there. */
  lemma NextPosition(v: View, isManual: bool, after: View)
    requires v.Valid() && v.mode == Shuffle && NextStarted(v, isManual, after)
    ensures after.InSync() && after.order == v.order && after.mode == Shuffle
    ensures after.position == Forward(Base(v), 1, |v.order|)
  {
    var (index, position) := Next(v, isManual);
    if |v.order| > 1 {
      PermutationInjective(v.order, after.position, position);
    }
  }

  lemma PrevPosition(v: View, after: View)
    requires v.InSync() && v.mode == Shuffle && PrevStarted(v, after)
    ensures after.InSync() && after.order == v.order && after.mode == Shuffle
    ensures v.position == Forward(after.position, 1, |v.order|)
  {
    var (index, position) := Prev(v);
    if |v.order| > 1 {
      PermutationInjective(v.order, after.position, position);
    }
  }

  /** One step of a run of nexts, by hand or at the end of a track, whose start succeeds. */
  ghost predicate NextStep(v: View, after: View) {
    v.Valid() && (NextStarted(v, true, after) || NextStarted(v, false, after))
  }

  ghost predicate NextRun(views: seq<View>) {
    forall k :: 0 <= k < |views| - 1 ==> NextStep(views[k], views[k + 1])
  }

  /** A run of as many nexts as there are tracks, in shuffle mode, from any point. */
  ghost predicate FullTurn(views: seq<View>) {
    && views != [] && views[0].Valid() && views[0].mode == Shuffle
    && |views| == |views[0].order| + 1 && NextRun(views)
  }

  lemma {:induction false} FullTurnPosition(views: seq<View>, k: nat)
    requires FullTurn(views) && 1 <= k < |views|
    ensures views[k].InSync() && views[k].order == views[0].order && views[k].mode == Shuffle
    ensures views[k].position == Forward(Base(views[0]), k, |views[0].order|)
  {
    if k > 1 {
      FullTurnPosition(views, k - 1);
    }
    assert NextStep(views[k - 1], views[k - 1 + 1]);
    var isManual := NextStarted(views[k - 1], true, views[k]);
    NextPosition(views[k - 1], isManual, views[k]);
  }

  /** From any point, as many nexts as there are tracks play every track exactly once. */
  lemma ShuffleVisitsEachTrackOnce(views: seq<View>, track: nat)
    requires FullTurn(views) && track < |views[0].order|
    ensures exists k :: 1 <= k < |views| && views[k].index == track
    ensures forall k, m :: 1 <= k < m < |views| ==> views[k].index != views[m].index
  {
    var order, base := views[0].order, Base(views[0]);
    var n := |order|;
    assert track in order;
    var position :| 0 <= position < n && order[position] == track;
    var k := if position > base then position - base else position + n - base;
    FullTurnPosition(views, k);
    assert views[k].index == track;
    forall k, m | 1 <= k < m < |views| ensures views[k].index != views[m].index {
      FullTurnPosition(views, k);
      FullTurnPosition(views, m);
      if views[k].index == views[m].index {
        PermutationInjective(order, views[k].position, views[m].position);
      }
    }
  }

  // ----- The other modes -----

  /** A single track repeats until it is skipped by hand; then the playlist goes on in order. */
  lemma SingleRepeatStays(v: View, after: View)
    requires v.Valid() && v.mode == SingleRepeat
    ensures NextStarted(v, false, after) ==> after == v
    ensures NextStarted(v, true, after) ==> after == v.(index := Forward(v.index, 1, |v.order|))
  {
  }

  /** But for shuffle mode, previous goes back by one, around the playlist. */
  lemma PrevGoesBack(v: View, after: View)
    requires v.Valid() && v.mode != Shuffle && PrevStarted(v, after)
    ensures after == v.(index := Forward(v.index, |v.order| - 1, |v.order|))
  {
  }

  /** In sequential mode the tracks follow each other in order, around and around. */
  lemma {:induction false} SequentialFollows(views: seq<View>, j: nat, k: nat)
    requires NextRun(views) && j + k < |views| && views[j].Valid() && views[j].mode == Sequential
    requires k <= |views[j].order|
    ensures views[j + k] == views[j].(index := Forward(views[j].index, k, |views[j].order|))
  {
    if k > 0 {
      SequentialFollows(views, j, k - 1);
      assert NextStep(views[j + (k - 1)], views[j + (k - 1) + 1]);
    }
  }

  /** So as many nexts as there are tracks play every track exactly once, the first one last. */
  lemma SequentialVisitsEachTrackOnce(views: seq<View>, j: nat, track: nat)
    requires NextRun(views) && j < |views| && views[j].Valid() && views[j].mode == Sequential
    requires j + |views[j].order| < |views| && track < |views[j].order|
    ensures exists k :: j < k <= j + |views[j].order| && views[k].index == track
    ensures forall k, m :: j < k < m <= j + |views[j].order| ==> views[k].index != views[m].index
  {
    var n, index := |views[j].order|, views[j].index;
    var k := if track > index then track - index else track + n - index;
    SequentialFollows(views, j, k);
    assert views[j + k].index == track;
    forall k, m | j < k < m <= j + n ensures views[k].index != views[m].index {
      SequentialFollows(views, j, k - j);
      SequentialFollows(views, j, m - j);
      assert views[k] == views[j + (k - j)] && views[m] == views[j + (m - j)];
    }
  }

  /** From a position in sync, previous undoes next, in every mode. */
  lemma PrevUndoesNext(v: View, there: View, back: View)
    requires v.Valid() && (v.mode == Shuffle ==> v.InSync())
    requires NextStarted(v, true, there) && there.Valid() && PrevStarted(there, back)
    ensures back == v
  {
    if v.mode == Shuffle {
      NextPosition(v, true, there);
      PrevPosition(there, back);
      PermutationInjective(v.order, v.position, back.position);
    }
  }

  /** And next undoes previous. */
  lemma NextUndoesPrev(v: View, there: View, back: View)
    requires v.Valid() && (v.mode == Shuffle ==> v.InSync())
    requires PrevStarted(v, there) && there.Valid() && NextStarted(there, true, back)
    ensures back == v
  {
    if v.mode == Shuffle {
      PrevPosition(v, there);
      NextPosition(there, true, back);
      PermutationInjective(v.order, v.position, back.position);
    }
  }

  /** With two tracks or more, next never repeats the current track, whether the order has
      just been built or is being walked or wraps around. */
  lemma NextNeverRepeats(v: View, after: View)
    requires v.Valid() && |v.order| > 1 && v.mode == Shuffle
    requires v.InSync() || (v.position == NOT_STARTED && v.order[0] != v.index)
    requires NextStarted(v, false, after)
    ensures after.index != v.index
  {
    NextPosition(v, false, after);
    if v.InSync() && after.index == v.index {
      PermutationInjective(v.order, v.position, after.position);
    }
  }
}
