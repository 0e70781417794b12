/** auditlog/audittest/store.go, and Compact, CompactBatch and Create of
    auditlog over it. */
module AuditStore {
  import opened Common
  import opened Ranking
  import opened AuditCompare
  import C = Compaction

  datatype Model = Model(typ: string, id: string)

  /** A version of a model; `meta` stands for its method, path, time and actor. */
  datatype Version = Version(id: nat, version: int, payload: Json, meta: string)

  type History = seq<Version>

  ghost predicate Ascends(h: History) {
    forall i, j | 0 <= i < j < |h| :: h[i].version < h[j].version
  }

  function Numbers(h: History): (vs: seq<int>)
    ensures |vs| == |h| && forall i | 0 <= i < |h| :: vs[i] == h[i].version
  {
    seq(|h|, i requires 0 <= i < |h| => h[i].version)
  }

  /** slices.BinarySearchFunc: where a version is, or belongs. */
  function Position(h: History, v: int): (i: nat)
    ensures i <= |h|
    ensures Ascends(h) ==> (forall k | 0 <= k < i :: h[k].version < v) && forall k | i <= k < |h| :: h[k].version >= v
  {
    if h == [] || h[|h| - 1].version < v then |h| else Position(h[..|h| - 1], v)
  }

  function HistoryOf(models: map<Model, History>, k: Model): History {
    if k in models then models[k] else []
  }

  /** slices.Insert at the place of the version. */
  function Inserted(h: History, v: Version): History {
    var i := Position(h, v.version);
    h[..i] + [v] + h[i..]
  }

  /** A new version keeps the order, is added to what was there, and goes last
      when it is the greatest. */
  lemma InsertedKeepsOrder(h: History, v: Version)
    requires Ascends(h) && v.version !in Numbers(h)
    ensures Ascends(Inserted(h, v))
  {
    var i := Position(h, v.version);
    assert i < |h| ==> Numbers(h)[i] == h[i].version;
    InsertBetween(h, i, v);
  }

  lemma InsertBetween(h: History, i: nat, v: Version)
    requires Ascends(h) && i <= |h| && (forall k | 0 <= k < i :: h[k].version < v.version)
    requires i < |h| ==> v.version < h[i].version
    ensures Ascends(h[..i] + [v] + h[i..])
  {
    var r := h[..i] + [v] + h[i..];
    assert forall a | 0 <= a < i :: r[a] == h[a];
    assert r[i] == v && forall a | i < a < |r| :: r[a] == h[a - 1];
    forall a, b | 0 <= a < b < |r| ensures r[a].version < r[b].version {
      if a == i && b - 1 > i { assert h[i].version < h[b - 1].version; }
    }
  }

  lemma InsertedAdds(h: History, v: Version)
    ensures multiset(Inserted(h, v)) == multiset(h) + multiset{v}
    ensures h == [] || h[|h| - 1].version < v.version ==> Inserted(h, v) == h + [v]
  {
    InsertAt(h, Position(h, v.version), v);
  }

  lemma InsertAt<T>(h: seq<T>, i: nat, v: T)
    requires i <= |h|
    ensures multiset(h[..i] + [v] + h[i..]) == multiset(h) + multiset{v}
  {
    assert h == h[..i] + h[i..];
  }

  /** slices.DeleteFunc over the versions to delete. */
  function Without(h: History, del: seq<int>): (r: History)
    ensures |r| <= |h|
    ensures forall x :: x in r <==> x in h && x.version !in del
  {
    if h == [] then [] else
      var init, last := h[..|h| - 1], h[|h| - 1];
      assert h == init + [last];
      Without(init, del) + if last.version in del then [] else [last]
  }

  lemma {:induction false} WithoutAscends(h: History, del: seq<int>)
    requires Ascends(h)
    ensures Ascends(Without(h, del))
  {
    if h != [] {
      var init := h[..|h| - 1];
      WithoutAscends(init, del);
      assert forall x <- Without(init, del) :: x in init;
    }
  }

  // ----- the order of candidates -----

  /** Most versions first, then by type and id. */
  predicate Sooner(models: map<Model, History>, a: Model, b: Model) {
    var m, n := |HistoryOf(models, a)|, |HistoryOf(models, b)|;
    m > n || (m == n && (Less(a.typ, b.typ) || (a.typ == b.typ && Less(a.id, b.id))))
  }

  lemma SoonerIsStrictOrder(models: map<Model, History>, s: set<Model>)
    ensures StrictOrderOn(s, (a: Model, b: Model) => Sooner(models, a, b))
  {
    var less := (a: Model, b: Model) => Sooner(models, a, b);
    forall x | x in s ensures !less(x, x) {
      LessIsStrict(x.typ, x.typ);
      LessIsStrict(x.id, x.id);
    }
    forall x, y | x in s && y in s ensures x == y || less(x, y) || less(y, x) {
      LessIsStrict(x.typ, y.typ);
      LessIsStrict(x.id, y.id);
    }
    forall x, y, z | x in s && y in s && z in s && less(x, y) && less(y, z) ensures less(x, z) {
      if Less(x.typ, y.typ) && Less(y.typ, z.typ) { LessIsTransitive(x.typ, y.typ, z.typ); }
      if Less(x.id, y.id) && Less(y.id, z.id) { LessIsTransitive(x.id, y.id, z.id); }
    }
  }

  /** OverThreshold: the models with more than `threshold` versions, the longest
      first, cut to `limit`; a negative limit does not cut. */
  function OverThreshold(models: map<Model, History>, threshold: int, limit: int): (refs: seq<Model>)
    ensures forall k <- refs :: k in models && |models[k]| > threshold
    ensures forall i, j | 0 <= i < j < |refs| :: refs[i] != refs[j] && Sooner(models, refs[i], refs[j])
    ensures forall k <- models | |models[k]| > threshold && k !in refs ::
              0 <= limit == |refs| && forall r <- refs :: |models[r]| >= |models[k]|
  {
    var over := set k | k in models && |models[k]| > threshold;
    var less := (a: Model, b: Model) => Sooner(models, a, b);
    SoonerIsStrictOrder(models, over);
    var refs := First(over, less, if limit >= 0 then limit else |over|);
    LongestComeFirst(models, over, refs);
    refs
  }

  lemma LongestComeFirst(models: map<Model, History>, over: set<Model>, refs: seq<Model>)
    requires over <= models.Keys && forall r <- refs :: r in over
    requires forall i, j | 0 <= i < j < |refs| :: Sooner(models, refs[i], refs[j])
    requires forall r <- refs, k <- over | k !in refs :: Sooner(models, r, k)
    ensures forall i, j | 0 <= i < j < |refs| :: refs[i] != refs[j]
    ensures forall r <- refs, k <- over | k !in refs :: |models[r]| >= |models[k]|
  {
    forall i, j | 0 <= i < j < |refs| ensures refs[i] != refs[j] {
      LessIsStrict(refs[i].typ, refs[i].typ);
      LessIsStrict(refs[i].id, refs[i].id);
    }
  }

  // ----- compaction of a history -----

  /** The history a Compact leaves. */
  ghost function Compacted(h: History, o: C.Options): History {
    Without(h, C.Deleted(Numbers(h), o, |h|))
  }

  lemma {:induction false} WithoutNumbers(h: History, k: nat, del: seq<int>)
    requires k <= |h|
    ensures Numbers(Without(h[..k], del)) == C.Remaining(Numbers(h), del, k)
  {
    if k > 0 {
      WithoutNumbers(h, k - 1, del);
      assert h[..k][..k - 1] == h[..k - 1];
      WithoutLast(h[..k], del);
    }
  }

  lemma WithoutLast(h: History, del: seq<int>)
    requires h != []
    ensures
      var init, last := h[..|h| - 1], h[|h| - 1];
      Numbers(Without(h, del)) == Numbers(Without(init, del)) + if last.version in del then [] else [last.version]
  {
  }

  lemma CompactedNumbers(h: History, o: C.Options)
    requires Ascends(h)
    ensures Numbers(Compacted(h, o)) == C.Survivors(Numbers(h), o, |h|)
  {
    WithoutNumbers(h, |h|, C.Deleted(Numbers(h), o, |h|));
    assert h[..|h|] == h;
    C.SurvivorsRemain(Numbers(h), o, |h|);
  }

  lemma CompactedSize(h: History, o: C.Options)
    requires Ascends(h)
    ensures |Compacted(h, o)| == |h| - |C.Deleted(Numbers(h), o, |h|)|
    ensures C.Deleted(Numbers(h), o, |h|) == [] <==> C.IsCompact(|h|, o)
    ensures |Compacted(h, o)| == |h| ==> Compacted(h, o) == h
  {
    CompactedNumbers(h, o);
    C.SurvivorsAndDeleted(Numbers(h), o, |h|);
    C.DeletesNothingIff(Numbers(h), o);
    if |Compacted(h, o)| == |h| {
      WithoutNothing(h);
    }
  }

  /** A Compact keeps exactly the versions that survive, and is done exactly when
      the history is compact. */
  lemma CompactedSurvives(h: History, o: C.Options)
    requires Ascends(h)
    ensures Numbers(Compacted(h, o)) == C.Survivors(Numbers(h), o, |h|)
    ensures Ascends(Compacted(h, o))
    ensures |Compacted(h, o)| == |h| <==> C.IsCompact(|h|, o)
    ensures |Compacted(h, o)| == |h| ==> Compacted(h, o) == h
  {
    CompactedNumbers(h, o);
    CompactedSize(h, o);
    WithoutAscends(h, C.Deleted(Numbers(h), o, |h|));
  }

  lemma {:induction false} WithoutNothing(h: History)
    ensures Without(h, []) == h
  {
    if h != [] {
      var init := h[..|h| - 1];
      WithoutNothing(init);
      assert h == init + [h[|h| - 1]];
    }
  }

  // ----- totals -----

  ghost function Total(models: map<Model, History>, ks: set<Model>): nat
    requires ks <= models.Keys
  {
    if ks == {} then 0 else
      var k :| k in ks;
      |models[k]| + Total(models, ks - {k})
  }

  lemma {:induction false} TotalOf(models: map<Model, History>, ks: set<Model>, k: Model)
    requires ks <= models.Keys && k in ks
    ensures Total(models, ks) == |models[k]| + Total(models, ks - {k})
  {
    var first :| first in ks && Total(models, ks) == |models[first]| + Total(models, ks - {first});
    if first != k {
      TotalOf(models, ks - {first}, k);
      TotalOf(models, ks - {k}, first);
      assert ks - {first} - {k} == ks - {k} - {first};
    }
  }

  lemma {:induction false} TotalSame(models: map<Model, History>, models': map<Model, History>, ks: set<Model>)
    requires ks <= models.Keys && ks <= models'.Keys && forall k <- ks :: models'[k] == models[k]
    ensures Total(models', ks) == Total(models, ks)
  {
    if ks != {} {
      var k :| k in ks;
      TotalOf(models, ks, k);
      TotalOf(models', ks, k);
      TotalSame(models, models', ks - {k});
    }
  }

  /** All the versions of the store. */
  ghost function AllVersions(models: map<Model, History>): nat {
    Total(models, models.Keys)
  }

  lemma TotalAfter(models: map<Model, History>, k: Model, h: History)
    requires k in models
    ensures AllVersions(models[k := h]) + |models[k]| == AllVersions(models) + |h|
  {
    var models' := models[k := h];
    assert models'.Keys == models.Keys;
    TotalOf(models, models.Keys, k);
    TotalOf(models', models'.Keys, k);
    TotalSame(models, models', models.Keys - {k});
  }

  /** The store after a Compact of each of the models. */
  ghost function AfterBatch(models: map<Model, History>, refs: seq<Model>, o: C.Options): map<Model, History> {
    if refs == [] then models else
      AfterCompact(AfterBatch(models, refs[..|refs| - 1], o), refs[|refs| - 1], o)
  }

  ghost function AfterCompact(models: map<Model, History>, k: Model, o: C.Options): map<Model, History> {
    if k in models then models[k := Compacted(models[k], o)] else models
  }

  lemma CompactLowersTotal(models: map<Model, History>, k: Model, o: C.Options)
    requires k in models
    ensures AfterCompact(models, k, o).Keys == models.Keys
    ensures AllVersions(AfterCompact(models, k, o)) + |models[k]| == AllVersions(models) + |Compacted(models[k], o)|
  {
    TotalAfter(models, k, Compacted(models[k], o));
  }

  /** Each listed model is compacted once, and no other changes. */
  lemma {:induction false} BatchTouchesListed(models: map<Model, History>, refs: seq<Model>, o: C.Options)
    requires forall i, j | 0 <= i < j < |refs| :: refs[i] != refs[j]
    ensures AfterBatch(models, refs, o).Keys == models.Keys
    ensures forall k <- models ::
              AfterBatch(models, refs, o)[k] == if k in refs then Compacted(models[k], o) else models[k]
  {
    if refs != [] {
      var init, k := refs[..|refs| - 1], refs[|refs| - 1];
      BatchTouchesListed(models, init, o);
      assert refs == init + [k];
      assert k !in init;
    }
  }

  datatype Created = New(version: int) | Unchanged | Conflict | Invalid(err: string)

  class Store {
    var lastId: nat
    var models: map<Model, History>

    ghost predicate Valid()
      reads this
    {
      forall k <- models :: Ascends(models[k])
    }

    constructor ()
      ensures Valid() && models == map[]
    {
      lastId := 0;
      models := map[];
    }

    /** A version the model already has is a duplicate; a new one goes to its
        place. */
    method Save(k: Model, version: int, payload: Json, meta: string) returns (duplicate: bool)
      requires Valid()
      modifies this
      ensures Valid()
      ensures duplicate <==> Has(old(Image(models, lastId)), k, version)
      ensures Image(models, lastId) == AfterSave(old(Image(models, lastId)), k, version, payload, meta)
    {
      var h := HistoryOf(models, k);
      var i := Position(h, version);
      if i < |h| && h[i].version == version {
        assert Numbers(h)[i] == version;
        return true;
      }
      lastId := lastId + 1;
      var v := Version(lastId, version, payload, meta);
      InsertedKeepsOrder(h, v);
      assert version !in Numbers(h);
      models := models[k := h[..i] + [v] + h[i..]];
      return false;
    }

    method QueryLast(k: Model) returns (last: Option<Version>)
      requires Valid()
      ensures last.None? <==> HistoryOf(models, k) == []
      ensures last.Some? ==> last.value in HistoryOf(models, k)
      ensures last.Some? ==> forall v <- HistoryOf(models, k) :: v.version <= last.value.version
    {
      var h := HistoryOf(models, k);
      if |h| == 0 {
        return None;
      }
      return Some(h[|h| - 1]);
    }

    method DeleteVersions(k: Model, versions: seq<int>) returns (n: nat)
      requires Valid()
      modifies this`models
      ensures Valid()
      ensures models == old(models)[k := Without(HistoryOf(old(models), k), versions)]
      ensures n == |HistoryOf(old(models), k)| - |models[k]|
      ensures forall v :: v in models[k] <==> v in HistoryOf(old(models), k) && v.version !in versions
      ensures forall m | m != k :: HistoryOf(models, m) == HistoryOf(old(models), m)
    {
      var h := HistoryOf(models, k);
      WithoutAscends(h, versions);
      models := models[k := Without(h, versions)];
      n := |h| - |models[k]|;
    }

    method Compact(k: Model, o: C.Options) returns (n: nat)
      requires Valid()
      modifies this`models
      ensures Valid() && models == AfterCompact(old(models), k, o)
      ensures n == |HistoryOf(old(models), k)| - |HistoryOf(models, k)|
      ensures n == 0 <==> C.IsCompact(|HistoryOf(old(models), k)|, o)
      ensures n == 0 ==> models == old(models)
    {
      var h := HistoryOf(models, k);
      CompactedSize(h, o);
      var del := C.VersionsToDelete(Numbers(h), o);
      if |del| == 0 {
        return 0;
      }
      n := DeleteVersions(k, del);
    }

    /** One portion of the models over the threshold, the longest first. With no
        other writer the versions of the store drop by `deleted`; and when no
        model changed, none over the threshold has anything left to delete, those
        cut off by the limit included. */
    method CompactBatch(threshold: int, limit: int, o: C.Options) returns (changed: nat, deleted: nat)
      requires Valid()
      modifies this`models
      ensures Valid() && models.Keys == old(models).Keys
      ensures AllVersions(models) + deleted == AllVersions(old(models))
      ensures changed > 0 <==> deleted > 0
      ensures changed == 0 ==> models == old(models)
      ensures changed == 0 ==> forall k <- models | |models[k]| > threshold :: C.IsCompact(|models[k]|, o)
      ensures models == AfterBatch(old(models),
                                   OverThreshold(old(models), threshold, if limit <= 0 then 100 else limit), o)
    {
      var refs := OverThreshold(models, threshold, if limit <= 0 then 100 else limit);
      changed, deleted := CompactAll(refs, o);
      if changed == 0 {
        NothingCutOff(models, threshold, if limit <= 0 then 100 else limit, o);
      }
    }

    method CompactAll(refs: seq<Model>, o: C.Options) returns (changed: nat, deleted: nat)
      requires Valid() && forall k <- refs :: k in models
      modifies this`models
      ensures Valid() && models.Keys == old(models).Keys && models == AfterBatch(old(models), refs, o)
      ensures AllVersions(models) + deleted == AllVersions(old(models))
      ensures changed > 0 <==> deleted > 0
      ensures changed == 0 ==> models == old(models) && forall k <- refs :: C.IsCompact(|models[k]|, o)
    {
      changed, deleted := 0, 0;
      for i := 0 to |refs|
        invariant Valid() && models.Keys == old(models).Keys && models == AfterBatch(old(models), refs[..i], o)
        invariant AllVersions(models) + deleted == AllVersions(old(models))
        invariant changed > 0 <==> deleted > 0
        invariant changed == 0 ==> models == old(models) && forall k <- refs[..i] :: C.IsCompact(|models[k]|, o)
      {
        var k := refs[i];
        assert refs[..i + 1][..i] == refs[..i] && refs[..i + 1] == refs[..i] + [k];
        CompactLowersTotal(models, k, o);
        var n := Compact(k, o);
        if n > 0 {
          changed := changed + 1;
          deleted := deleted + n;
        }
      }
      assert refs[..|refs|] == refs;
    }

    /** CompactBatch until no model changes: it ends, with every model over the
        threshold compact. */
    method DrainBacklog(threshold: int, limit: int, o: C.Options)
      requires Valid()
      modifies this`models
      ensures Valid() && models.Keys == old(models).Keys
      ensures forall k <- models | |models[k]| > threshold :: C.IsCompact(|models[k]|, o)
    {
      var changed, deleted := CompactBatch(threshold, limit, o);
      while changed > 0
        invariant Valid() && models.Keys == old(models).Keys
        invariant changed == 0 ==> forall k <- models | |models[k]| > threshold :: C.IsCompact(|models[k]|, o)
        decreases AllVersions(models), changed
      {
        changed, deleted := CompactBatch(threshold, limit, o);
      }
    }

    /** Create on a model that rivals write to: `rivals(n)` is what they save
        between the read and the save of its n-th pass. `read` is the last
        version of the store `seen` by its last pass. */
    method Create(k: Model, payload: Json, meta: string, rivals: nat -> seq<Version>)
      returns (r: Created, attempts: nat, read: Option<Version>, ghost seen: Image)
      requires Valid()
      modifies this
      ensures Valid() && 1 <= attempts <= 3
      ensures Reached(old(Image(models, lastId)), k, rivals, attempts, seen)
      ensures IsLast(HistoryOf(seen.models, k), read)
      ensures Passed(seen, Image(models, lastId), k, payload, meta, rivals(attempts), r, read)
      ensures r.Conflict? ==> attempts == 3
    {
      ghost var was := Image(models, lastId);
      attempts := 1;
      seen := was;
      r, read := CreateOnce(k, payload, meta, rivals(1));
      while r.Conflict? && attempts < 3
        invariant Valid() && 1 <= attempts <= 3
        invariant Reached(was, k, rivals, attempts, seen)
        invariant IsLast(HistoryOf(seen.models, k), read)
        invariant Passed(seen, Image(models, lastId), k, payload, meta, rivals(attempts), r, read)
      {
        ReachesNext(was, k, rivals, attempts, seen, Image(models, lastId), read);
        seen := Image(models, lastId);
        attempts := attempts + 1;
        r, read := CreateOnce(k, payload, meta, rivals(attempts));
      }
    }

    /** One pass of the loop of Create; Conflict is a number a rival took. */
    method CreateOnce(k: Model, payload: Json, meta: string, rivals: seq<Version>)
      returns (r: Created, read: Option<Version>)
      requires Valid()
      modifies this
      ensures Valid()
      ensures IsLast(HistoryOf(old(models), k), read)
      ensures Passed(old(Image(models, lastId)), Image(models, lastId), k, payload, meta, rivals, r, read)
      ensures PassedBy(HistoryOf(old(models), k), HistoryOf(models, k), payload, meta, rivals, r, read)
      ensures forall m | m != k :: HistoryOf(models, m) == HistoryOf(old(models), m)
    {
      ghost var was := Image(models, lastId);
      r, read := Pass(k, payload, meta, rivals);
      PassedIsBy(was, Image(models, lastId), k, payload, meta, rivals, r, read);
    }

    method Pass(k: Model, payload: Json, meta: string, rivals: seq<Version>)
      returns (r: Created, read: Option<Version>)
      requires Valid()
      modifies this
      ensures Valid()
      ensures IsLast(HistoryOf(old(models), k), read)
      ensures Passed(old(Image(models, lastId)), Image(models, lastId), k, payload, meta, rivals, r, read)
    {
      read := QueryLast(k);
      var verdict := Compare(payload, read);
      if verdict.Some? {
        return verdict.value, read;
      }
      var version := (if read.Some? then read.value.version else 0) + 1;
      var duplicate := SaveNext(k, version, payload, meta, rivals);
      if duplicate {
        return Conflict, read;
      }
      return New(version), read;
    }

    /** The comparison with the version read; there is none with version 0. */
    static method Compare(payload: Json, read: Option<Version>) returns (verdict: Option<Created>)
      ensures Compared(payload, read, verdict)
    {
      if read.Some? && read.value.version != 0 {
        var equal := PayloadsEqual(payload, read.value.payload);
        if equal.Err? {
          return Some(Invalid(equal.message));
        }
        if equal.value {
          return Some(Unchanged);
        }
      }
      return None;
    }

    /** The save of a pass, after what rivals saved since its read. */
    method SaveNext(k: Model, version: int, payload: Json, meta: string, rivals: seq<Version>) returns (duplicate: bool)
      requires Valid() && forall v <- HistoryOf(models, k) :: v.version < version
      modifies this
      ensures Valid()
      ensures var mid := AfterSaves(old(Image(models, lastId)), k, rivals);
              if duplicate then Image(models, lastId) == mid && Saves(rivals, version)
              else !Has(mid, k, version) && Image(models, lastId) == AfterSave(mid, k, version, payload, meta)
    {
      ghost var was := Image(models, lastId);
      SaveAll(k, rivals);
      duplicate := Save(k, version, payload, meta);
      if duplicate {
        TakenByRival(was, k, rivals, version);
      }
    }

    /** What rivals save to the model; a number taken is a duplicate of theirs. */
    method SaveAll(k: Model, vs: seq<Version>)
      requires Valid()
      modifies this
      ensures Valid() && Image(models, lastId) == AfterSaves(old(Image(models, lastId)), k, vs)
    {
      for i := 0 to |vs|
        invariant Valid() && Image(models, lastId) == AfterSaves(old(Image(models, lastId)), k, vs[..i])
      {
        assert vs[..i + 1][..i] == vs[..i];
        var _ := Save(k, vs[i].version, vs[i].payload, vs[i].meta);
      }
      assert vs[..|vs|] == vs;
    }
  }

  // ----- what a Create reads and leaves -----

  /** The contents of a store. */
  datatype Image = Image(models: map<Model, History>, lastId: nat)

  /** A save: nothing for a number that is there, else one more version. */
  function AfterSave(s: Image, k: Model, version: int, payload: Json, meta: string): Image {
    var h := HistoryOf(s.models, k);
    if Has(s, k, version) then s
    else Image(s.models[k := Inserted(h, Version(s.lastId + 1, version, payload, meta))], s.lastId + 1)
  }

  function AfterSaves(s: Image, k: Model, vs: seq<Version>): Image {
    if vs == [] then s else
      var v := vs[|vs| - 1];
      AfterSave(AfterSaves(s, k, vs[..|vs| - 1]), k, v.version, v.payload, v.meta)
  }

  /** The store after what the rivals of the first n passes saved: a pass that
      found its number taken saved nothing itself. */
  function AfterRivals(s: Image, k: Model, rivals: nat -> seq<Version>, n: nat): Image
    decreases n
  {
    if n == 0 then s else AfterSaves(AfterRivals(s, k, rivals, n - 1), k, rivals(n))
  }

  /** `last` is the greatest version of the history, or none of an empty one. */
  ghost predicate IsLast(h: History, last: Option<Version>) {
    && (last.None? <==> h == [])
    && (last.Some? ==> last.value in h && forall v <- h :: v.version <= last.value.version)
  }

  function NextNumber(last: Option<Version>): int {
    (if last.Some? then last.value.version else 0) + 1
  }

  /** The zero result exactly for a snapshot equal to the version read, an error
      exactly for one that cannot be compared, and otherwise a save. */
  ghost predicate Compared(payload: Json, read: Option<Version>, verdict: Option<Created>) {
    var compared := read.Some? && read.value.version != 0;
    && (verdict == Some(Unchanged) <==> compared && PayloadsEqual(payload, read.value.payload) == Ok(true))
    && (verdict.Some? && verdict.value.Invalid? <==> compared && PayloadsEqual(payload, read.value.payload).Err?)
    && (verdict.Some? ==> verdict.value.Unchanged? || verdict.value.Invalid?)
  }

  /** How a pass that read `read` in the store s ended, and the store it left: as
      it was when nothing was to be saved, and else with the next number unless
      a rival had saved it. */
  ghost predicate Passed(s: Image, s': Image, k: Model, payload: Json, meta: string, rivals: seq<Version>,
                         r: Created, read: Option<Version>)
  {
    var next := NextNumber(read);
    && Compared(payload, read, if r.Unchanged? || r.Invalid? then Some(r) else None)
    && (r.Unchanged? || r.Invalid? ==> s' == s)
    && (r.Conflict? ==> s' == AfterSaves(s, k, rivals) && Saves(rivals, next))
    && (r.New? ==> r.version == next && !Has(AfterSaves(s, k, rivals), k, next)
                   && s' == AfterSave(AfterSaves(s, k, rivals), k, next, payload, meta))
  }

  /** The same, version by version: what a pass read in the history h, what it
      decided by that, and what it left of h. */
  ghost predicate PassedBy(h: History, h': History, payload: Json, meta: string, rivals: seq<Version>,
                           r: Created, read: Option<Version>)
  {
    var compares := read.Some? && read.value.version != 0;
    var next := if read.Some? then read.value.version + 1 else 1;
    && (read.None? <==> h == [])
    && (read.Some? ==> read.value in h && forall v <- h :: v.version <= read.value.version)
    && (r.Unchanged? <==> compares && PayloadsEqual(payload, read.value.payload) == Ok(true))
    && (r.Invalid? <==> compares && PayloadsEqual(payload, read.value.payload).Err?)
    && (r.Unchanged? || r.Invalid? ==> h' == h)
    && (r.Conflict? ==> exists v <- rivals :: v.version == next)
    && (r.New? ==> r.version == next && (forall v <- rivals :: v.version != next)
                   && exists v <- h' :: v.version == next && v.payload == payload && v.meta == meta)
    && (forall v <- h :: v in h')
    && (forall v <- h' :: v in h || (r.New? && v.version == next) || exists x <- rivals :: x.version == v.version)
  }

  lemma {:induction false} SavedByRivals(s: Image, k: Model, vs: seq<Version>)
    ensures forall v <- HistoryOf(s.models, k) :: v in HistoryOf(AfterSaves(s, k, vs).models, k)
    ensures forall v <- HistoryOf(AfterSaves(s, k, vs).models, k) ::
              v in HistoryOf(s.models, k) || exists x <- vs :: x.version == v.version
    ensures forall m | m != k :: HistoryOf(AfterSaves(s, k, vs).models, m) == HistoryOf(s.models, m)
    decreases |vs|
  {
    if vs != [] {
      var init, x := vs[..|vs| - 1], vs[|vs| - 1];
      var mid := AfterSaves(s, k, init);
      SavedByRivals(s, k, init);
      SavedOne(mid, k, x.version, x.payload, x.meta);
      assert x in vs && forall y <- init :: y in vs;
    }
  }

  /** A save, version by version: a number that is there is a duplicate and changes
      nothing; any other is added, and nothing else. */
  ghost predicate SavedTo(h: History, h': History, v: Version, duplicate: bool) {
    && (duplicate <==> exists x <- h :: x.version == v.version)
    && multiset(h') == multiset(h) + (if duplicate then multiset{} else multiset{v})
    && (duplicate ==> h' == h)
  }

  lemma SaveByVersion(s: Image, k: Model, version: int, payload: Json, meta: string)
    ensures
      var s' := AfterSave(s, k, version, payload, meta);
      SavedTo(HistoryOf(s.models, k), HistoryOf(s'.models, k), Version(s'.lastId, version, payload, meta),
              Has(s, k, version)) &&
      s'.lastId == s.lastId + (if Has(s, k, version) then 0 else 1)
  {
    var h, v := HistoryOf(s.models, k), Version(s.lastId + 1, version, payload, meta);
    HistoryAfterSave(s, k, version, payload, meta);
    InNumbers(h, version);
    InsertedAdds(h, v);
  }

  lemma SavedOne(s: Image, k: Model, version: int, payload: Json, meta: string)
    ensures
      var h, h' := HistoryOf(s.models, k), HistoryOf(AfterSave(s, k, version, payload, meta).models, k);
      && (forall v <- h :: v in h')
      && (forall v <- h' :: v in h || (v.version == version && v.payload == payload && v.meta == meta))
      && (!Has(s, k, version) ==> exists v <- h' :: v.version == version && v.payload == payload && v.meta == meta)
    ensures forall m | m != k ::
              HistoryOf(AfterSave(s, k, version, payload, meta).models, m) == HistoryOf(s.models, m)
  {
    InInserted(HistoryOf(s.models, k), Version(s.lastId + 1, version, payload, meta));
  }

  lemma {:induction false} SavesIff(vs: seq<Version>, n: int)
    ensures Saves(vs, n) <==> exists v <- vs :: v.version == n
  {
    if vs != [] {
      SavesIff(vs[..|vs| - 1], n);
      assert vs == vs[..|vs| - 1] + [vs[|vs| - 1]];
    }
  }

  lemma PassedIsBy(s: Image, s': Image, k: Model, payload: Json, meta: string, rivals: seq<Version>,
                   r: Created, read: Option<Version>)
    requires IsLast(HistoryOf(s.models, k), read) && Passed(s, s', k, payload, meta, rivals, r, read)
    ensures PassedBy(HistoryOf(s.models, k), HistoryOf(s'.models, k), payload, meta, rivals, r, read)
    ensures forall m | m != k :: HistoryOf(s'.models, m) == HistoryOf(s.models, m)
  {
    var next, mid := NextNumber(read), AfterSaves(s, k, rivals);
    SavesIff(rivals, next);
    SavesNumbers(s, k, rivals, next);
    SavedByRivals(s, k, rivals);
    SavedOne(mid, k, next, payload, meta);
  }

  /** In the n-th pass a rival saved the number after the last one that was
      there. */
  ghost predicate Overtaken(s: Image, k: Model, rivals: nat -> seq<Version>, n: nat)
    requires n > 0
  {
    exists last :: IsLast(HistoryOf(AfterRivals(s, k, rivals, n - 1).models, k), last) &&
        Saves(rivals(n), NextNumber(last))
  }

  /** The n-th pass reads in the store `seen`, after n - 1 passes whose number
      rivals took. */
  ghost predicate Reached(s: Image, k: Model, rivals: nat -> seq<Version>, n: nat, seen: Image)
    requires n > 0
  {
    seen == AfterRivals(s, k, rivals, n - 1) && forall m | 1 <= m < n :: Overtaken(s, k, rivals, m)
  }

  lemma ReachesNext(s: Image, k: Model, rivals: nat -> seq<Version>, n: nat, seen: Image, s': Image,
                    read: Option<Version>)
    requires n > 0 && Reached(s, k, rivals, n, seen)
    requires IsLast(HistoryOf(seen.models, k), read) && s' == AfterSaves(seen, k, rivals(n))
    requires Saves(rivals(n), NextNumber(read))
    ensures Reached(s, k, rivals, n + 1, s')
  {
    assert Overtaken(s, k, rivals, n);
  }

  /** A Create nobody interferes with takes one pass, and does not give up. */
  lemma AloneInOnePass(s: Image, s': Image, k: Model, payload: Json, meta: string, rivals: nat -> seq<Version>,
                       n: nat, seen: Image, r: Created, read: Option<Version>)
    requires n > 0 && Reached(s, k, rivals, n, seen) && Passed(seen, s', k, payload, meta, rivals(n), r, read)
    requires rivals(1) == []
    ensures n == 1 && seen == s && !r.Conflict?
  {
    assert n > 1 ==> Overtaken(s, k, rivals, 1);
  }

  predicate Has(s: Image, k: Model, n: int) {
    n in Numbers(HistoryOf(s.models, k))
  }

  /** The history of the model after a save. */
  lemma HistoryAfterSave(s: Image, k: Model, version: int, payload: Json, meta: string)
    ensures
      var h, v := HistoryOf(s.models, k), Version(s.lastId + 1, version, payload, meta);
      HistoryOf(AfterSave(s, k, version, payload, meta).models, k) ==
      if version in Numbers(h) then h else Inserted(h, v)
  {
  }

  lemma SaveNumbers(s: Image, k: Model, version: int, payload: Json, meta: string, n: int)
    ensures Has(AfterSave(s, k, version, payload, meta), k, n) <==> n == version || Has(s, k, n)
  {
    HistoryAfterSave(s, k, version, payload, meta);
    InsertedNumbers(HistoryOf(s.models, k), Version(s.lastId + 1, version, payload, meta), n);
  }

  lemma InsertedNumbers(h: History, v: Version, n: int)
    ensures n in Numbers(Inserted(h, v)) <==> n == v.version || n in Numbers(h)
  {
    InNumbers(h, n);
    InNumbers(Inserted(h, v), n);
    InInserted(h, v);
  }

  lemma InInserted(h: History, v: Version)
    ensures forall x :: x in Inserted(h, v) <==> x in h || x == v
  {
    InsertedAdds(h, v);
    forall x ensures x in Inserted(h, v) <==> x in h || x == v {
      assert x in Inserted(h, v) <==> x in multiset(Inserted(h, v));
      assert x in h <==> x in multiset(h);
    }
  }

  lemma InNumbers(h: History, n: int)
    ensures n in Numbers(h) <==> exists x :: x in h && x.version == n
  {
    if n in Numbers(h) {
      var i :| 0 <= i < |h| && Numbers(h)[i] == n;
      assert h[i] in h;
    }
    if x :| x in h && x.version == n {
      var i :| 0 <= i < |h| && h[i] == x;
      assert Numbers(h)[i] == n;
    }
  }

  /** One of the versions has this number. */
  predicate Saves(vs: seq<Version>, n: int)
    ensures Saves(vs, n) ==> exists v <- vs :: v.version == n
  {
    vs != [] && (Saves(vs[..|vs| - 1], n) || vs[|vs| - 1].version == n)
  }

  /** The numbers of a model after saves are those it had and those saved. */
  lemma {:induction false} SavesNumbers(s: Image, k: Model, vs: seq<Version>, n: int)
    ensures Has(AfterSaves(s, k, vs), k, n) <==> Has(s, k, n) || Saves(vs, n)
    decreases |vs|
  {
    if vs != [] {
      var init, v := vs[..|vs| - 1], vs[|vs| - 1];
      SavesNumbers(s, k, init, n);
      SaveNumbers(AfterSaves(s, k, init), k, v.version, v.payload, v.meta, n);
    }
  }

  /** The number after the last can only have been taken by a rival. */
  lemma TakenByRival(s: Image, k: Model, vs: seq<Version>, version: int)
    requires forall v <- HistoryOf(s.models, k) :: v.version < version
    requires Has(AfterSaves(s, k, vs), k, version)
    ensures Saves(vs, version)
  {
    SavesNumbers(s, k, vs, version);
    NextIsNew(HistoryOf(s.models, k), version);
  }

  lemma NextIsNew(h: History, version: int)
    requires forall v <- h :: v.version < version
    ensures version !in Numbers(h)
  {
    assert forall i | 0 <= i < |h| :: h[i] in h;
  }

  /** A model the limit cut off is no longer than one that was listed, so it is
      compact when that one is. */
  lemma NothingCutOff(models: map<Model, History>, threshold: int, limit: int, o: C.Options)
    requires limit > 0
    requires forall r <- OverThreshold(models, threshold, limit) :: C.IsCompact(|models[r]|, o)
    ensures forall k <- models | |models[k]| > threshold :: C.IsCompact(|models[k]|, o)
  {
    var refs := OverThreshold(models, threshold, limit);
    forall k | k in models && |models[k]| > threshold ensures C.IsCompact(|models[k]|, o) {
      if k !in refs {
        var r := refs[0];
        assert r in refs;
        C.CompactIsMonotone(|models[k]|, |models[r]|, o);
      }
    }
  }
}
