/** auditlog: writers and compactions of one model, in every interleaving.

    Create reads the last version and saves the next; Compact lists the versions
    and deletes some later. Each of the four is one statement of the store. */
module AuditRace {
  import opened Common
  import opened Ranking
  import opened AuditCompare
  import C = Compaction

  datatype Saved = Saved(version: int, payload: Json)

  datatype Outcome = New(version: int) | Unchanged | Conflict | Invalid

  /** A Create: about to read, then between its read and its save. `first` and
      `at` are the numbers of saves there were at its first and its last read,
      and `disturbed` says that the number it will save was deleted since the
      last. */
  datatype Writer =
    | Reading(payload: Json, attempt: nat, first: nat)
    | Deciding(payload: Json, attempt: nat, first: nat, at: nat, last: Option<Saved>, disturbed: bool)
    | Finished(outcome: Outcome, first: nat)

  /** A Compact: listing, or between its list and its delete. */
  datatype Compactor = Idle | Listed(del: seq<int>)

  /** `saved` is every save that succeeded, in order, and `savers` whose it was; `top`
      the greatest number ever stored. */
  datatype State = State(
    stored: map<int, Json>,
    top: int,
    saved: seq<Saved>,
    savers: seq<nat>,
    writers: map<nat, Writer>,
    compactors: map<nat, Compactor>)

  const MAX_ATTEMPTS := 3

  datatype Event =
    | Read(w: nat) | Skip(w: nat) | Save(w: nat)
    | List(c: nat, o: C.Options) | Delete(c: nat)

  function LastOf(s: State): Option<Saved> {
    if s.top in s.stored then Some(Saved(s.top, s.stored[s.top])) else None
  }

  function ReadVersion(last: Option<Saved>): int {
    if last.Some? then last.value.version else 0
  }

  /** What Create makes of its read: None is a snapshot to save. */
  function Verdict(payload: Json, last: Option<Saved>): Option<Outcome> {
    if last.None? then None else
    var equal := PayloadsEqual(payload, last.value.payload);
    if equal.Err? then Some(Invalid) else if equal.value then Some(Unchanged) else None
  }

  ghost function Ascending(s: set<int>): (r: seq<int>)
    ensures |r| == |s| && (forall x <- r :: x in s) && (forall x <- s :: x in r)
    ensures forall i, j | 0 <= i < j < |r| :: r[i] < r[j]
  {
    var less := (a: int, b: int) => a < b;
    var r := Ranking.Ascending(s, less);
    assert forall i, j | 0 <= i < j < |r| :: less(r[i], r[j]);
    r
  }

  ghost predicate Enabled(s: State, e: Event) {
    match e
    case Read(w) => w in s.writers && s.writers[w].Reading?
    case Skip(w) => w in s.writers && s.writers[w].Deciding? && Verdict(s.writers[w].payload, s.writers[w].last).Some?
    case Save(w) => w in s.writers && s.writers[w].Deciding? && Verdict(s.writers[w].payload, s.writers[w].last).None?
    case List(c, _) => c in s.compactors && s.compactors[c].Idle?
    case Delete(c) => c in s.compactors && s.compactors[c].Listed?
  }

  /** The writers after versions were deleted: one whose next number went with
      them is disturbed. */
  function Disturb(s: State, del: seq<int>): map<nat, Writer> {
    map w | w in s.writers ::
      var x := s.writers[w];
      if x.Deciding? && ReadVersion(x.last) + 1 in del && ReadVersion(x.last) + 1 in s.stored
      then x.(disturbed := true) else x
  }

  ghost function After(s: State, e: Event): State
    requires Enabled(s, e)
  {
    match e
    case Read(w) =>
      var x := s.writers[w];
      var first := if x.attempt == 1 then |s.saved| else x.first;
      s.(writers := s.writers[w := Deciding(x.payload, x.attempt, first, |s.saved|, LastOf(s), false)])
    case Skip(w) =>
      var x := s.writers[w];
      s.(writers := s.writers[w := Finished(Verdict(x.payload, x.last).value, x.first)])
    case Save(w) =>
      var x := s.writers[w];
      var version := ReadVersion(x.last) + 1;
      if version in s.stored then
        s.(writers := s.writers[w := if x.attempt < MAX_ATTEMPTS then Reading(x.payload, x.attempt + 1, x.first)
                                     else Finished(Conflict, x.first)])
      else
        s.(stored := s.stored[version := x.payload], top := Max(s.top, version),
           saved := s.saved + [Saved(version, x.payload)], savers := s.savers + [w],
           writers := s.writers[w := Finished(New(version), x.first)])
    case List(c, o) =>
      var vers := Ascending(s.stored.Keys);
      s.(compactors := s.compactors[c := Listed(C.Deleted(vers, o, |vers|))])
    case Delete(c) =>
      var del := s.compactors[c].del;
      s.(stored := map v | v in s.stored && v !in del :: s.stored[v],
         writers := Disturb(s, del), compactors := s.compactors[c := Idle])
  }

  ghost predicate Initial(s: State) {
    && s.stored == map[] && s.top == 0 && s.saved == [] && s.savers == []
    && (forall w <- s.writers :: s.writers[w].Reading? && s.writers[w].attempt == 1)
    && (forall c <- s.compactors :: s.compactors[c].Idle?)
  }

  ghost predicate Run(s: State, events: seq<Event>, s': State)
    decreases |events|
  {
    if events == [] then s == s' else Enabled(s, events[0]) && Run(After(s, events[0]), events[1..], s')
  }

  // ----- the least and the greatest version -----

  ghost predicate Bounds(s: State) {
    && s.top >= 0
    && (s.top > 0 <==> s.top in s.stored)
    && (s.top > 0 ==> 1 in s.stored)
    && (forall v <- s.stored :: 1 <= v <= s.top)
    && (forall c <- s.compactors | s.compactors[c].Listed? :: forall d <- s.compactors[c].del :: 1 < d < s.top)
    && (forall w <- s.writers | s.writers[w].Deciding? :: 0 <= ReadVersion(s.writers[w].last) <= s.top)
  }

  lemma ListKeepsBounds(s: State, c: nat, o: C.Options)
    requires Bounds(s) && Enabled(s, List(c, o))
    ensures Bounds(After(s, List(c, o)))
  {
    var vers := Ascending(s.stored.Keys);
    if vers != [] {
      C.FirstAndLastSurvive(vers, o);
      assert vers[0] in vers && vers[|vers| - 1] in vers;
    }
    var s' := After(s, List(c, o));
    assert forall d <- s'.compactors[c].del :: 1 < d < s.top;
  }

  lemma DeleteKeepsBounds(s: State, c: nat)
    requires Bounds(s) && Enabled(s, Delete(c))
    ensures Bounds(After(s, Delete(c)))
  {
    var s' := After(s, Delete(c));
    assert forall w <- s'.writers | s'.writers[w].Deciding? ::
             s.writers[w].Deciding? && s'.writers[w].last == s.writers[w].last;
  }

  lemma BoundsKept(s: State, e: Event)
    requires Bounds(s) && Enabled(s, e)
    ensures Bounds(After(s, e))
  {
    if e.List? {
      ListKeepsBounds(s, e.c, e.o);
    } else if e.Delete? {
      DeleteKeepsBounds(s, e.c);
    } else {
      WriterKeepsBounds(s, e);
    }
  }

  lemma WriterKeepsBounds(s: State, e: Event)
    requires Bounds(s) && Enabled(s, e) && (e.Read? || e.Skip? || e.Save?)
    ensures Bounds(After(s, e))
  {
  }

  lemma {:induction false} BoundsAlways(s: State, events: seq<Event>, s': State)
    requires Bounds(s) && Run(s, events, s')
    ensures Bounds(s')
    decreases |events|
  {
    if events != [] {
      BoundsKept(s, events[0]);
      BoundsAlways(After(s, events[0]), events[1..], s');
    }
  }

  /** In every interleaving of Creates and Compacts no delete takes the least or
      the greatest stored version; the least is 1, and a read finds the
      greatest. */
  lemma EndsAreNeverDeleted(s: State, events: seq<Event>, s': State, c: nat, v: int)
    requires Initial(s) && Run(s, events, s') && Enabled(s', Delete(c)) && v in s'.compactors[c].del
    ensures exists least, greatest :: least in s'.stored && greatest in s'.stored && least < v < greatest
    ensures 1 in s'.stored && s'.top in s'.stored && forall x <- s'.stored :: 1 <= x <= s'.top
  {
    BoundsAlways(s, events, s');
    assert 1 in s'.stored && s'.top in s'.stored && 1 < v < s'.top;
  }

  // ----- version numbers -----

  ghost predicate WasSaved(s: State, v: int) {
    exists i | 0 <= i < |s.saved| :: s.saved[i].version == v
  }

  /** Every number up to the top was saved, and a writer finds its next number
      free while the top has passed it only if it was deleted since the read. */
  ghost predicate Windows(s: State) {
    && (forall v | 1 <= v <= s.top :: WasSaved(s, v))
    && (forall i | 0 <= i < |s.saved| :: 1 <= s.saved[i].version <= s.top)
    && (forall w <- s.writers | s.writers[w].Deciding? ::
          var next := ReadVersion(s.writers[w].last) + 1;
          if s.writers[w].disturbed then next <= s.top else (next <= s.top ==> next in s.stored))
  }

  lemma SavedStays(s: State, s': State, v: int)
    requires WasSaved(s, v) && s.saved <= s'.saved
    ensures WasSaved(s', v)
  {
    var i :| 0 <= i < |s.saved| && s.saved[i].version == v;
    assert s'.saved[i].version == v;
  }

  lemma SaveKeepsWindows(s: State, w: nat)
    requires Bounds(s) && Windows(s) && Enabled(s, Save(w))
    ensures Windows(After(s, Save(w)))
  {
    var s' := After(s, Save(w));
    forall v | 1 <= v <= s'.top ensures WasSaved(s', v) {
      if v <= s.top {
        SavedStays(s, s', v);
      } else {
        assert s'.saved[|s.saved|].version == v;
      }
    }
  }

  lemma OthersKeepWindows(s: State, e: Event)
    requires Bounds(s) && Windows(s) && Enabled(s, e) && !e.Save?
    ensures Windows(After(s, e))
  {
    var s' := After(s, e);
    assert s'.saved == s.saved && s'.top == s.top;
    forall v | 1 <= v <= s'.top ensures WasSaved(s', v) { SavedStays(s, s', v); }
  }

  lemma WindowsKept(s: State, e: Event)
    requires Bounds(s) && Windows(s) && Enabled(s, e)
    ensures Windows(After(s, e))
  {
    if e.Save? { SaveKeepsWindows(s, e.w); } else { OthersKeepWindows(s, e); }
  }

  lemma {:induction false} WindowsAlways(s: State, events: seq<Event>, s': State)
    requires Bounds(s) && Windows(s) && Run(s, events, s')
    ensures Bounds(s') && Windows(s')
    decreases |events|
  {
    if events != [] {
      BoundsKept(s, events[0]);
      WindowsKept(s, events[0]);
      WindowsAlways(After(s, events[0]), events[1..], s');
    }
  }

  /** A save that succeeds gives out a number for the first time exactly when that
      number was not deleted between the read and the save; then it is the next
      one. */
  lemma NewNumberIffUndisturbed(s: State, events: seq<Event>, s': State, w: nat)
    requires Initial(s) && Run(s, events, s') && Enabled(s', Save(w))
    requires ReadVersion(s'.writers[w].last) + 1 !in s'.stored
    ensures !WasSaved(s', ReadVersion(s'.writers[w].last) + 1) <==> !s'.writers[w].disturbed
    ensures !s'.writers[w].disturbed ==> ReadVersion(s'.writers[w].last) == s'.top
  {
    WindowsAlways(s, events, s');
  }

  /** A run in which no number is deleted between the read and the save of a
      Create that saves it. */
  ghost predicate Undisturbed(s: State, events: seq<Event>)
    decreases |events|
  {
    events == [] ||
    (&& Enabled(s, events[0])
     && (events[0].Save? ==> !s.writers[events[0].w].disturbed)
     && Undisturbed(After(s, events[0]), events[1..]))
  }

  ghost predicate Differs(a: Saved, b: Saved) {
    PayloadsEqual(a.payload, b.payload) == Ok(false)
  }

  ghost predicate Numbered(s: State) {
    && s.top == |s.saved|
    && (forall i | 0 <= i < |s.saved| :: s.saved[i].version == i + 1)
    && (forall v <- s.stored :: 1 <= v <= |s.saved| && s.stored[v] == s.saved[v - 1].payload)
    && (forall w <- s.writers | s.writers[w].Deciding? && s.writers[w].last.Some? ::
          var last := s.writers[w].last.value;
          1 <= last.version <= |s.saved| && last == s.saved[last.version - 1])
  }

  ghost predicate Differing(s: State) {
    forall i | 0 < i < |s.saved| :: Differs(s.saved[i], s.saved[i - 1])
  }

  ghost predicate Contiguous(s: State) {
    Numbered(s) && Differing(s)
  }

  /** A save that succeeds undisturbed appends the next number. */
  lemma SaveAppends(s: State, w: nat)
    requires Bounds(s) && Windows(s) && Numbered(s) && Enabled(s, Save(w)) && !s.writers[w].disturbed
    requires ReadVersion(s.writers[w].last) + 1 !in s.stored
    ensures After(s, Save(w)).saved == s.saved + [Saved(|s.saved| + 1, s.writers[w].payload)]
    ensures After(s, Save(w)).stored == s.stored[|s.saved| + 1 := s.writers[w].payload]
    ensures After(s, Save(w)).top == |s.saved| + 1
    ensures |s.saved| > 0 ==> s.writers[w].last == Some(s.saved[|s.saved| - 1])
  {
  }

  /** The writers that are still deciding after a save read what they read. */
  lemma SaveKeepsReads(s: State, w: nat)
    requires Enabled(s, Save(w))
    ensures var s' := After(s, Save(w));
            forall x <- s'.writers | s'.writers[x].Deciding? :: x in s.writers && s'.writers[x] == s.writers[x]
  {
  }

  lemma RefusedSaveKeepsNumbers(s: State, w: nat)
    requires Numbered(s) && Enabled(s, Save(w)) && ReadVersion(s.writers[w].last) + 1 in s.stored
    ensures Numbered(After(s, Save(w)))
  {
    SaveKeepsReads(s, w);
  }

  lemma SaveKeepsNumbers(s: State, w: nat)
    requires Bounds(s) && Windows(s) && Numbered(s) && Enabled(s, Save(w)) && !s.writers[w].disturbed
    ensures Numbered(After(s, Save(w)))
  {
    var s' := After(s, Save(w));
    if ReadVersion(s.writers[w].last) + 1 in s.stored {
      RefusedSaveKeepsNumbers(s, w);
    } else {
      SaveAppends(s, w);
      SaveKeepsReads(s, w);
      assert forall i | 0 <= i < |s.saved| :: s'.saved[i] == s.saved[i];
    }
  }

  lemma SaveKeepsDiffering(s: State, w: nat)
    requires Bounds(s) && Windows(s) && Contiguous(s) && Enabled(s, Save(w)) && !s.writers[w].disturbed
    ensures Differing(After(s, Save(w)))
  {
    var s', x := After(s, Save(w)), s.writers[w];
    if ReadVersion(x.last) + 1 !in s.stored {
      SaveAppends(s, w);
      var n := |s.saved|;
      assert n > 0 ==> Differs(s'.saved[n], x.last.value);
      forall i | 0 < i < |s'.saved| ensures Differs(s'.saved[i], s'.saved[i - 1]) {
        if i < n {
          assert Differs(s.saved[i], s.saved[i - 1]);
        }
      }
    }
  }

  lemma ReadKeepsNumbers(s: State, w: nat)
    requires Bounds(s) && Numbered(s) && Enabled(s, Read(w))
    ensures Numbered(After(s, Read(w)))
  {
    assert LastOf(s).Some? ==> s.stored[s.top] == s.saved[s.top - 1].payload;
  }

  lemma DeleteKeepsNumbers(s: State, c: nat)
    requires Numbered(s) && Enabled(s, Delete(c))
    ensures Numbered(After(s, Delete(c)))
  {
    var s' := After(s, Delete(c));
    forall w | w in s'.writers && s'.writers[w].Deciding?
      ensures s.writers[w].Deciding? && s'.writers[w].last == s.writers[w].last {
    }
  }

  lemma ListKeepsNumbers(s: State, c: nat, o: C.Options)
    requires Numbered(s) && Enabled(s, List(c, o))
    ensures Numbered(After(s, List(c, o)))
  {
  }

  lemma SkipKeepsNumbers(s: State, w: nat)
    requires Numbered(s) && Enabled(s, Skip(w))
    ensures Numbered(After(s, Skip(w)))
  {
  }

  lemma OthersKeepNumbers(s: State, e: Event)
    requires Bounds(s) && Numbered(s) && Enabled(s, e) && !e.Save?
    ensures Numbered(After(s, e)) && After(s, e).saved == s.saved
  {
    match e
    case Read(w) => ReadKeepsNumbers(s, w);
    case Delete(c) => DeleteKeepsNumbers(s, c);
    case List(c, o) => ListKeepsNumbers(s, c, o);
    case Skip(w) => SkipKeepsNumbers(s, w);
  }

  lemma ContiguousKept(s: State, e: Event)
    requires Bounds(s) && Windows(s) && Contiguous(s) && Enabled(s, e)
    requires e.Save? ==> !s.writers[e.w].disturbed
    ensures Contiguous(After(s, e))
  {
    if e.Save? {
      SaveKeepsNumbers(s, e.w);
      SaveKeepsDiffering(s, e.w);
    } else {
      OthersKeepNumbers(s, e);
    }
  }

  lemma {:induction false} ContiguousAlways(s: State, events: seq<Event>, s': State)
    requires Bounds(s) && Windows(s) && Contiguous(s) && Run(s, events, s') && Undisturbed(s, events)
    ensures Contiguous(s')
    decreases |events|
  {
    if events != [] {
      BoundsKept(s, events[0]);
      WindowsKept(s, events[0]);
      ContiguousKept(s, events[0]);
      ContiguousAlways(After(s, events[0]), events[1..], s');
    }
  }

  /** In every undisturbed interleaving the saves are the versions 1, 2, ..., n in
      this order, each snapshot differs from the one before, and what is stored
      is what was saved under its number. */
  lemma VersionsAreContiguous(s: State, events: seq<Event>, s': State)
    requires Initial(s) && Run(s, events, s') && Undisturbed(s, events)
    ensures forall i | 0 <= i < |s'.saved| :: s'.saved[i].version == i + 1
    ensures forall i | 0 < i < |s'.saved| :: Differs(s'.saved[i], s'.saved[i - 1])
    ensures forall v <- s'.stored :: 1 <= v <= |s'.saved| && s'.stored[v] == s'.saved[v - 1].payload
  {
    ContiguousAlways(s, events, s');
  }

  ghost predicate Whole(s: State) {
    && (forall v | 1 <= v <= s.top :: v in s.stored)
    && (forall w <- s.writers | s.writers[w].Deciding? :: !s.writers[w].disturbed)
  }

  lemma WholeKept(s: State, e: Event)
    requires Bounds(s) && Windows(s) && Whole(s) && Enabled(s, e) && !e.Delete?
    ensures Whole(After(s, e))
  {
  }

  /** With no delete at all, what is stored is exactly 1..n. */
  lemma {:induction false} StoredIsAll(s: State, events: seq<Event>, s': State)
    requires Bounds(s) && Windows(s) && Whole(s) && Run(s, events, s') && forall e <- events :: !e.Delete?
    ensures forall v :: v in s'.stored <==> 1 <= v <= s'.top
    ensures Undisturbed(s, events)
    decreases |events|
  {
    if events != [] {
      BoundsKept(s, events[0]);
      WindowsKept(s, events[0]);
      WholeKept(s, events[0]);
      StoredIsAll(After(s, events[0]), events[1..], s');
    }
  }

  // ----- a Create that gives up -----

  /** Where a writer is, by the saves there were: each pass of its loop saw one
      save more than the one before, and it has saved nothing yet. */
  ghost predicate Pace(s: State, w: nat)
    requires w in s.writers
  {
    match s.writers[w]
    case Reading(_, attempt, first) =>
      1 <= attempt <= MAX_ATTEMPTS && (attempt > 1 ==> first + attempt - 1 <= |s.saved|) && w !in s.savers
    case Deciding(_, attempt, first, at, _, _) =>
      1 <= attempt <= MAX_ATTEMPTS && first + attempt - 1 <= at <= |s.saved| && w !in s.savers
    case Finished(outcome, first) =>
      outcome.Conflict? ==> first + MAX_ATTEMPTS <= |s.saved| && w !in s.savers
  }

  /** A number that a writer has yet to save is above the top until a save. */
  ghost predicate AboveTop(s: State) {
    forall w <- s.writers | s.writers[w].Deciding? && s.writers[w].at == |s.saved| ::
      ReadVersion(s.writers[w].last) == s.top
  }

  lemma AboveTopKept(s: State, e: Event)
    requires Bounds(s) && AboveTop(s) && (forall w <- s.writers :: Pace(s, w)) && Enabled(s, e)
    ensures AboveTop(After(s, e))
  {
  }

  lemma PaceKept(s: State, e: Event, w: nat)
    requires Bounds(s) && AboveTop(s) && Enabled(s, e) && w in s.writers && Pace(s, w)
    ensures w in After(s, e).writers && Pace(After(s, e), w)
  {
  }

  lemma {:induction false} PaceAlways(s: State, events: seq<Event>, s': State)
    requires Bounds(s) && AboveTop(s) && (forall w <- s.writers :: Pace(s, w)) && Run(s, events, s')
    ensures forall w <- s'.writers :: Pace(s', w)
    decreases |events|
  {
    if events != [] {
      var s1 := After(s, events[0]);
      BoundsKept(s, events[0]);
      AboveTopKept(s, events[0]);
      forall w <- s1.writers ensures Pace(s1, w) { PaceKept(s, events[0], w); }
      PaceAlways(s1, events[1..], s');
    }
  }

  /** A Create that gives up was overtaken: since its first read at least three
      versions were saved, and none of them by itself. */
  lemma GivesUpOvertaken(s: State, events: seq<Event>, s': State, w: nat)
    requires Initial(s) && Run(s, events, s') && w in s'.writers && s'.writers[w].Finished? &&
             s'.writers[w].outcome.Conflict?
    ensures s'.writers[w].first + 3 <= |s'.saved| && w !in s'.savers
  {
    PaceAlways(s, events, s');
  }

  // ----- a Create, step by step -----

  /** What a Create reads: the greatest version stored, or none. */
  lemma ReadsTheGreatest(s: State, events: seq<Event>, s': State, w: nat, s'': State)
    requires Initial(s) && Run(s, events, s') && Run(s', [Read(w)], s'')
    ensures w in s''.writers && s''.writers[w].Deciding? && !s''.writers[w].disturbed && s''.stored == s'.stored
    ensures
      var last := s''.writers[w].last;
      && (last.None? <==> forall v :: v !in s'.stored)
      && (last.Some? ==>
            && last.value.version in s'.stored && s'.stored[last.value.version] == last.value.payload
            && forall v <- s'.stored :: v <= last.value.version)
  {
    BoundsAlways(s, events, s');
    assert [Read(w)][0] == Read(w) && [Read(w)][1..] == [];
  }

  /** What a Create does with what it read: an equal snapshot and one that cannot be
      compared end it with nothing saved; any other is saved under the next number,
      or, when that is taken, begins the next of three passes or gives up. */
  lemma DecidesByRead(s: State, e: Event, s': State, w: nat)
    requires Run(s, [e], s') && w in s.writers && s.writers[w].Deciding? && (e == Skip(w) || e == Save(w))
    ensures w in s'.writers
    ensures
      var x, y := s.writers[w], s'.writers[w];
      var next := if x.last.Some? then x.last.value.version + 1 else 1;
      if x.last.Some? && PayloadsEqual(x.payload, x.last.value.payload) == Ok(true) then
        y == Finished(Unchanged, x.first) && s'.stored == s.stored && s'.saved == s.saved
      else if x.last.Some? && PayloadsEqual(x.payload, x.last.value.payload).Err? then
        y == Finished(Invalid, x.first) && s'.stored == s.stored && s'.saved == s.saved
      else if next !in s.stored then
        && y == Finished(New(next), x.first) && s'.stored == s.stored[next := x.payload]
        && s'.saved == s.saved + [Saved(next, x.payload)] && s'.savers == s.savers + [w]
      else if x.attempt < 3 then
        y == Reading(x.payload, x.attempt + 1, x.first) && s'.stored == s.stored && s'.saved == s.saved
      else
        y == Finished(Conflict, x.first) && s'.stored == s.stored && s'.saved == s.saved
  {
    assert [e][0] == e && [e][1..] == [];
  }

  /** A Create is disturbed exactly from a step on that takes the number it will
      save from the store, until it reads again. */
  lemma DisturbedByDelete(s: State, e: Event, s': State, w: nat)
    requires Run(s, [e], s') && w in s.writers && s.writers[w].Deciding? && w in s'.writers && s'.writers[w].Deciding?
    ensures
      var next := if s.writers[w].last.Some? then s.writers[w].last.value.version + 1 else 1;
      s'.writers[w].disturbed <==> s.writers[w].disturbed || (next in s.stored && next !in s'.stored)
  {
    assert [e][0] == e && [e][1..] == [];
  }

  /** A Compact lists what its rule deletes of the stored versions and later deletes
      what it listed, and nothing else; then it is idle again. */
  lemma CompactsWhatItListed(s: State, e: Event, s': State)
    requires Run(s, [e], s')
    ensures e.List? ==> e.c !in s.compactors || s.compactors[e.c].Idle?
    ensures e.List? ==>
              && s'.stored == s.stored && e.c in s'.compactors && s'.compactors[e.c].Listed?
              && s'.compactors[e.c].del == C.Deleted(Ascending(s.stored.Keys), e.o, |s.stored.Keys|)
    ensures e.Delete? ==>
              && e.c in s.compactors && s.compactors[e.c].Listed? && e.c in s'.compactors && s'.compactors[e.c].Idle?
              && (forall v :: v in s'.stored <==> v in s.stored && v !in s.compactors[e.c].del)
              && (forall v <- s'.stored :: s'.stored[v] == s.stored[v])
  {
    assert [e][0] == e && [e][1..] == [];
  }

  /** The steps a writer has left. */
  function Left(x: Writer): int {
    match x
    case Reading(_, attempt, _) => 2 * (3 - attempt) + 2
    case Deciding(_, attempt, _, _, _, _) => 2 * (3 - attempt) + 1
    case Finished(_, _) => 0
  }

  /** The steps of the writer in the run. */
  function StepsOf(events: seq<Event>, w: nat): nat {
    if events == [] then 0 else
      (if events[0] == Read(w) || events[0] == Skip(w) || events[0] == Save(w) then 1 else 0) + StepsOf(events[1..], w)
  }

  lemma {:induction false} StepsAreLeft(s: State, events: seq<Event>, s': State, w: nat)
    requires Bounds(s) && AboveTop(s) && (forall x <- s.writers :: Pace(s, x)) && Run(s, events, s') && w in s.writers
    ensures w in s'.writers && Left(s'.writers[w]) >= 0
    ensures StepsOf(events, w) + Left(s'.writers[w]) <= Left(s.writers[w])
    decreases |events|
  {
    if events != [] {
      var s1 := After(s, events[0]);
      BoundsKept(s, events[0]);
      AboveTopKept(s, events[0]);
      forall x <- s1.writers ensures Pace(s1, x) { PaceKept(s, events[0], x); }
      StepLowersLeft(s, events[0], w);
      StepsAreLeft(s1, events[1..], s', w);
    }
  }

  lemma StepLowersLeft(s: State, e: Event, w: nat)
    requires Enabled(s, e) && w in s.writers && Pace(s, w)
    ensures w in After(s, e).writers
    ensures Left(After(s, e).writers[w]) + (if e == Read(w) || e == Skip(w) || e == Save(w) then 1 else 0)
            <= Left(s.writers[w])
  {
  }

  /** In every interleaving a Create makes at most three reads and three saves. */
  lemma CreateEnds(s: State, events: seq<Event>, s': State, w: nat)
    requires Initial(s) && Run(s, events, s') && w in s.writers
    ensures StepsOf(events, w) <= 6
  {
    StepsAreLeft(s, events, s', w);
  }

  // ----- a number that is given out twice -----

  const A := Null
  const B := Obj(map[])
  const CAP := C.Options(0, 0, 2, 0)

  lemma CapDeletesSecond()
    ensures Ascending({1, 2, 3}) == [1, 2, 3]
    ensures C.Deleted([1, 2, 3], CAP, 3) == [2]
  {
    var r := Ascending({1, 2, 3});
    assert |{1, 2, 3}| == 3;
    assert r[0] < r[1] < r[2] && r[0] in r && r[1] in r && r[2] in r;
    var vers := [1, 2, 3];
    assert C.Deleted(vers, CAP, 1) == [] && !C.Keeps(3, CAP, 1) && C.Keeps(3, CAP, 2);
    assert C.Deleted(vers, CAP, 2) == [] + [2];
  }

  lemma Prepended(s: State, e: Event, rest: seq<Event>, s': State)
    requires Enabled(s, e) && Run(After(s, e), rest, s')
    ensures Run(s, [e] + rest, s')
  {
    assert ([e] + rest)[1..] == rest;
  }

  /** Version 1 was read by writer 1, and version 2 deleted since: the number is
      saved again. */
  lemma SavedAgain(s: State) returns (events: seq<Event>, s': State)
    requires 2 !in s.stored && 1 in s.writers && s.writers[1] == Deciding(B, 1, 1, 1, Some(Saved(1, A)), true)
    ensures Run(s, events, s') && s'.saved == s.saved + [Saved(2, B)]
  {
    s' := After(s, Save(1));
    Prepended(s, Save(1), [], s');
    events := [Save(1)] + [];
  }

  lemma FromListed(s: State) returns (events: seq<Event>, s': State)
    requires s.stored == map[1 := A, 2 := B, 3 := A] && 0 in s.compactors && s.compactors[0] == Listed([2])
    requires 1 in s.writers && s.writers[1] == Deciding(B, 1, 1, 1, Some(Saved(1, A)), false)
    ensures Run(s, events, s') && s'.saved == s.saved + [Saved(2, B)]
  {
    var s1 := After(s, Delete(0));
    var rest, last := SavedAgain(s1);
    Prepended(s, Delete(0), rest, last);
    events, s' := [Delete(0)] + rest, last;
  }

  lemma FromThreeVersions(s: State) returns (events: seq<Event>, s': State)
    requires s.stored == map[1 := A, 2 := B, 3 := A] && 0 in s.compactors && s.compactors[0].Idle?
    requires 1 in s.writers && s.writers[1] == Deciding(B, 1, 1, 1, Some(Saved(1, A)), false)
    ensures Run(s, events, s') && s'.saved == s.saved + [Saved(2, B)]
  {
    CapDeletesSecond();
    assert s.stored.Keys == {1, 2, 3};
    var s1 := After(s, List(0, CAP));
    var rest, last := FromListed(s1);
    Prepended(s, List(0, CAP), rest, last);
    events, s' := [List(0, CAP)] + rest, last;
  }

  /** A Create whose read and save follow each other stores the next version. */
  lemma ReadThenSave(s: State, w: nat, p: Json) returns (s1: State, s2: State)
    requires w in s.writers && s.writers[w].Reading? && s.writers[w].payload == p && s.writers[w].attempt == 1 &&
             Verdict(p, LastOf(s)).None?
    requires s.top >= 0 && (s.top in s.stored <==> s.top > 0) && s.top + 1 !in s.stored
    ensures Enabled(s, Read(w)) && s1 == After(s, Read(w)) && Enabled(s1, Save(w)) && s2 == After(s1, Save(w))
    ensures s2 == State(s.stored[s.top + 1 := p], s.top + 1, s.saved + [Saved(s.top + 1, p)], s.savers + [w],
                        s.writers[w := Finished(New(s.top + 1), |s.saved|)], s.compactors)
  {
    s1 := After(s, Read(w));
    s2 := After(s1, Save(w));
    assert s1.writers[w := Finished(New(s.top + 1), |s.saved|)] == s.writers[w := Finished(New(s.top + 1), |s.saved|)];
  }

  lemma FromTwoVersions(s: State) returns (events: seq<Event>, s': State)
    requires s.stored == map[1 := A, 2 := B] && s.top == 2 && 0 in s.compactors && s.compactors[0].Idle?
    requires 1 in s.writers && s.writers[1] == Deciding(B, 1, 1, 1, Some(Saved(1, A)), false)
    requires 3 in s.writers && s.writers[3] == Reading(A, 1, 0)
    ensures Run(s, events, s') && s'.saved == s.saved + [Saved(3, A)] + [Saved(2, B)]
  {
    var s1, s2 := ReadThenSave(s, 3, A);
    var rest, last := FromThreeVersions(s2);
    Prepended(s1, Save(3), rest, last);
    Prepended(s, Read(3), [Save(3)] + rest, last);
    events, s' := [Read(3)] + ([Save(3)] + rest), last;
  }

  lemma FromOneVersion(s: State) returns (events: seq<Event>, s': State)
    requires s.stored == map[1 := A] && s.top == 1 && 0 in s.compactors && s.compactors[0].Idle?
    requires 1 in s.writers && s.writers[1] == Deciding(B, 1, 1, 1, Some(Saved(1, A)), false)
    requires 2 in s.writers && s.writers[2] == Reading(B, 1, 0) && 3 in s.writers && s.writers[3] == Reading(A, 1, 0)
    ensures Run(s, events, s') && s'.saved == s.saved + [Saved(2, B)] + [Saved(3, A)] + [Saved(2, B)]
  {
    var s1, s2 := ReadThenSave(s, 2, B);
    var rest, last := FromTwoVersions(s2);
    Prepended(s1, Save(2), rest, last);
    Prepended(s, Read(2), [Save(2)] + rest, last);
    events, s' := [Read(2)] + ([Save(2)] + rest), last;
  }

  lemma FromFirstRead(s: State) returns (events: seq<Event>, s': State)
    requires s.stored == map[1 := A] && s.top == 1 && |s.saved| == 1 && 0 in s.compactors && s.compactors[0].Idle?
    requires {1, 2, 3} <= s.writers.Keys && s.writers[1] == s.writers[2] == Reading(B, 1, 0) &&
             s.writers[3] == Reading(A, 1, 0)
    ensures Run(s, events, s') && s'.saved == s.saved + [Saved(2, B)] + [Saved(3, A)] + [Saved(2, B)]
  {
    var s1 := After(s, Read(1));
    var rest, last := FromOneVersion(s1);
    Prepended(s, Read(1), rest, last);
    events, s' := [Read(1)] + rest, last;
  }

  /** A Compact that deletes version 2 between the read of version 1 and the save
      of the next lets the number 2 be saved a second time. */
  lemma DeletedNumberIsReused() returns (s: State, events: seq<Event>, s': State)
    ensures Initial(s) && Run(s, events, s')
    ensures s'.saved == [Saved(1, A)] + [Saved(2, B)] + [Saved(3, A)] + [Saved(2, B)]
  {
    s := FourWriters();
    var s1, s2 := ReadThenSave(s, 0, A);
    var rest, last := FromFirstRead(s2);
    Prepended(s1, Save(0), rest, last);
    Prepended(s, Read(0), [Save(0)] + rest, last);
    events, s' := [Read(0)] + ([Save(0)] + rest), last;
  }

  lemma FourWriters() returns (s: State)
    ensures Initial(s) && {0, 1, 2, 3} <= s.writers.Keys && 0 in s.compactors
    ensures s.writers[0] == s.writers[3] == Reading(A, 1, 0) && s.writers[1] == s.writers[2] == Reading(B, 1, 0)
  {
    s := State(map[], 0, [], [],
               map[0 := Reading(A, 1, 0), 1 := Reading(B, 1, 0), 2 := Reading(B, 1, 0), 3 := Reading(A, 1, 0)],
               map[0 := Idle]);
  }
}
