/**
 * Which models the picker leaves out (app/lib/workers-ai-model.ts, `olderBuilderModelIds`), and what is left. How a
 * label is read into a lineage is not part of this model.
 */
module ModelSupersession {
  import opened Wrappers

  /** A version number, part by part, each later one a decimal fraction. */
  type Generation = seq<real>

  /** `snapshot` is a date in a label, as a number; `added` the catalog's date, in milliseconds. */
  datatype Lineage = Lineage(
    id: string, family: string, generation: Option<Generation>, snapshot: Option<nat>, added: Option<int>)

  type Release = (string, Option<Generation>)
  type Name = (string, Option<Generation>, Option<nat>)

  function ReleaseOf(lineage: Lineage): Release {
    (lineage.family, lineage.generation)
  }

  function NameOf(lineage: Lineage): Name {
    (lineage.family, lineage.generation, lineage.snapshot)
  }

  // ---------- Comparing generations ----------

  /** A generation goes on in zeros. */
  function Part(generation: Generation, index: nat): (part: real)
    ensures index < |generation| ==> part == generation[index]
    ensures index >= |generation| ==> part == 0.0
  {
    if index < |generation| then generation[index] else 0.0
  }

  /** The first difference from there on. */
  function Difference(left: Generation, right: Generation, from: nat): real
    decreases Max(|left|, |right|) - from
  {
    if from >= Max(|left|, |right|) then 0.0
    else if Part(left, from) != Part(right, from) then Part(left, from) - Part(right, from)
    else Difference(left, right, from + 1)
  }

  method CompareGenerations(left: Generation, right: Generation) returns (difference: real)
    ensures difference == Difference(left, right, 0)
  {
    for index := 0 to Max(|left|, |right|)
      invariant Difference(left, right, index) == Difference(left, right, 0)
    {
      difference := Part(left, index) - Part(right, index);
      if difference != 0.0 {
        return;
      }
    }
    return 0.0;
  }

  predicate Older(left: Generation, right: Generation) {
    Difference(left, right, 0) < 0.0
  }

  /** The parts agree before this one, whatever zeros follow, and here the left is smaller. */
  ghost predicate SmallerAt(left: Generation, right: Generation, from: nat, at: nat) {
    && from <= at && Part(left, at) < Part(right, at)
    && forall k | from <= k < at :: Part(left, k) == Part(right, k)
  }

  lemma SmallerLater(left: Generation, right: Generation, from: nat, next: nat)
    requires Part(left, from) == Part(right, from) && next == from + 1
    ensures (exists at: nat :: SmallerAt(left, right, from, at)) <==>
        (exists at: nat :: SmallerAt(left, right, next, at))
  {
    if at: nat :| SmallerAt(left, right, from, at) {
      assert SmallerAt(left, right, next, at);
    }
    if at: nat :| SmallerAt(left, right, next, at) {
      assert SmallerAt(left, right, from, at);
    }
  }

  /** The comparison is the lexicographic one on the parts followed by zeros for ever. */
  lemma {:induction false} OlderIsLexicographic(left: Generation, right: Generation, from: nat)
    ensures Difference(left, right, from) < 0.0 <==> exists at: nat :: SmallerAt(left, right, from, at)
    ensures Difference(left, right, from) > 0.0 <==> exists at: nat :: SmallerAt(right, left, from, at)
    decreases Max(|left|, |right|) - from
  {
    if from < Max(|left|, |right|) {
      if Part(left, from) == Part(right, from) {
        OlderIsLexicographic(left, right, from + 1);
        SmallerLater(left, right, from, from + 1);
        SmallerLater(right, left, from, from + 1);
      } else {
        assert SmallerAt(left, right, from, from) || SmallerAt(right, left, from, from);
      }
    }
  }

  lemma DifferenceFlips(a: Generation, b: Generation)
    ensures Difference(a, b, 0) > 0.0 <==> Older(b, a)
  {
    OlderIsLexicographic(a, b, 0);
    OlderIsLexicographic(b, a, 0);
  }

  /** A strict weak order, so `not older` is a total preorder. */
  lemma OlderIsAnOrder(a: Generation, b: Generation, c: Generation)
    ensures !(Older(a, b) && Older(b, a))
    ensures Older(a, b) && Older(b, c) ==> Older(a, c)
    ensures !Older(a, b) && !Older(b, c) ==> !Older(a, c)
  {
    OlderIsLexicographic(a, b, 0);
    OlderIsLexicographic(b, a, 0);
    OlderIsLexicographic(b, c, 0);
    OlderIsLexicographic(a, c, 0);
    if Older(a, b) && Older(b, c) {
      var i: nat :| SmallerAt(a, b, 0, i);
      var j: nat :| SmallerAt(b, c, 0, j);
      assert SmallerAt(a, c, 0, if i < j then i else j);
    }
    if Older(a, c) {
      var k: nat :| SmallerAt(a, c, 0, k);
      FirstDiffers(a, b, c, k);
    }
  }

  /** If `a` is smaller than `c` at `k`, then `b` is not below both nor above both. */
  lemma FirstDiffers(a: Generation, b: Generation, c: Generation, k: nat)
    requires SmallerAt(a, c, 0, k)
    ensures (exists at: nat :: SmallerAt(a, b, 0, at)) || (exists at: nat :: SmallerAt(b, c, 0, at))
  {
    if i: nat :| i < k && Part(a, i) != Part(b, i) {
      var j := Least(a, b, i);
      assert j <= i < k;
      if Part(a, j) < Part(b, j) {
        assert SmallerAt(a, b, 0, j);
      } else {
        assert SmallerAt(b, c, 0, j);
      }
    } else if Part(a, k) < Part(b, k) {
      assert SmallerAt(a, b, 0, k);
    } else {
      assert SmallerAt(b, c, 0, k);
    }
  }

  /** The first part on which they differ. */
  ghost function Least(a: Generation, b: Generation, i: nat): (j: nat)
    requires Part(a, i) != Part(b, i)
    ensures j <= i && Part(a, j) != Part(b, j) && forall k: nat | k < j :: Part(a, k) == Part(b, k)
  {
    if exists k: nat :: k < i && Part(a, k) != Part(b, k) then
      var k: nat :| k < i && Part(a, k) != Part(b, k);
      Least(a, b, k)
    else i
  }

  // ---------- Which models are superseded ----------

  /** A newer generation of its family is listed. */
  ghost predicate OfOlderGeneration(models: seq<Lineage>, model: Lineage) {
    model.generation.Some? &&
    exists other <- models ::
      other.family == model.family && other.generation.Some? && Older(model.generation.value, other.generation.value)
  }

  /** Its release is listed undated, or at a newer snapshot. */
  ghost predicate OfOlderSnapshot(models: seq<Lineage>, model: Lineage) {
    model.snapshot.Some? &&
    exists other <- models ::
      && other.family == model.family && other.generation == model.generation
      && (other.snapshot.None? || other.snapshot.value > model.snapshot.value)
  }

  /** The same name was added later; a date before 1970 counts as superseded anyway. */
  ghost predicate AddedEarlier(models: seq<Lineage>, model: Lineage) {
    model.added.Some? &&
    (model.added.value < 0 || exists other <- models ::
       && other.family == model.family && other.generation == model.generation && other.snapshot == model.snapshot
       && other.added.Some? && other.added.value > model.added.value)
  }

  ghost predicate Superseded(models: seq<Lineage>, model: Lineage) {
    OfOlderGeneration(models, model) || OfOlderSnapshot(models, model) || AddedEarlier(models, model)
  }

  // ---------- The three maps ----------

  /** Per family, a generation none is newer than. */
  ghost predicate NewestGenerations(newest: map<string, Generation>, models: seq<Lineage>) {
    && (forall model <- models | model.generation.Some? ::
          model.family in newest && !Older(newest[model.family], model.generation.value))
    && (forall family <- newest ::
          exists model <- models :: model.family == family && model.generation == Some(newest[family]))
  }

  /** Per release, none once it is listed undated, else the newest snapshot. */
  ghost predicate NewestSnapshots(newest: map<Release, Option<nat>>, models: seq<Lineage>) {
    && (forall model <- models ::
          ReleaseOf(model) in newest
          && (newest[ReleaseOf(model)].None?
              || (model.snapshot.Some? && model.snapshot.value <= newest[ReleaseOf(model)].value)))
    && (forall release <- newest ::
          exists model <- models :: ReleaseOf(model) == release && model.snapshot == newest[release])
  }

  /** Per name, the latest date, or 0. */
  ghost predicate NewestAdded(newest: map<Name, int>, models: seq<Lineage>) {
    && (forall model <- models | model.added.Some? ::
          NameOf(model) in newest && model.added.value <= newest[NameOf(model)])
    && (forall name <- newest ::
          newest[name] == 0 || exists model <- models :: NameOf(model) == name && model.added == Some(newest[name]))
    && (forall name <- newest :: newest[name] >= 0)
  }

  method FindNewestGenerations(models: seq<Lineage>) returns (newest: map<string, Generation>)
    ensures NewestGenerations(newest, models)
  {
    newest := map[];
    assert models[..|models|] == models;
    for i := 0 to |models|
      invariant NewestGenerations(newest, models[..i])
    {
      var model := models[i];
      assert models[..i + 1] == models[..i] + [model];
      if model.generation.Some? {
        var isNew := model.family !in newest;
        if !isNew {
          var difference := CompareGenerations(model.generation.value, newest[model.family]);
          isNew := difference > 0.0;
          DifferenceFlips(model.generation.value, newest[model.family]);
          forall m <- models[..i] | m.generation.Some? && m.family == model.family
            ensures isNew ==> !Older(model.generation.value, m.generation.value)
          {
            OlderIsAnOrder(newest[model.family], model.generation.value, m.generation.value);
          }
        }
        OlderIsAnOrder(model.generation.value, model.generation.value, model.generation.value);
        if isNew {
          newest := newest[model.family := model.generation.value];
        }
      }
    }
  }

  method FindNewestSnapshots(models: seq<Lineage>) returns (newest: map<Release, Option<nat>>)
    ensures NewestSnapshots(newest, models)
  {
    newest := map[];
    assert models[..|models|] == models;
    for i := 0 to |models|
      invariant NewestSnapshots(newest, models[..i])
    {
      var model := models[i];
      assert models[..i + 1] == models[..i] + [model];
      var key := ReleaseOf(model);
      newest := newest[key :=
        if model.snapshot.None? || (key in newest && newest[key].None?) then None
        else Some(if key in newest then Max(model.snapshot.value, newest[key].value) else model.snapshot.value)];
    }
  }

  method FindNewestAdded(models: seq<Lineage>) returns (newest: map<Name, int>)
    ensures NewestAdded(newest, models)
  {
    newest := map[];
    assert models[..|models|] == models;
    for i := 0 to |models|
      invariant NewestAdded(newest, models[..i])
    {
      var model := models[i];
      assert models[..i + 1] == models[..i] + [model];
      if model.added.Some? {
        var name := NameOf(model);
        newest := newest[name := Max(model.added.value, if name in newest then newest[name] else 0)];
      }
    }
  }

  // ---------- The answer ----------

  lemma NewestGenerationDecides(newest: map<string, Generation>, models: seq<Lineage>, model: Lineage)
    requires NewestGenerations(newest, models) && model in models
    ensures OfOlderGeneration(models, model) <==>
            model.generation.Some? && model.family in newest && Older(model.generation.value, newest[model.family])
  {
    if OfOlderGeneration(models, model) {
      var other :| other in models && other.family == model.family && other.generation.Some?
                   && Older(model.generation.value, other.generation.value);
      OlderIsAnOrder(model.generation.value, newest[model.family], other.generation.value);
    }
  }

  lemma NewestSnapshotDecides(newest: map<Release, Option<nat>>, models: seq<Lineage>, model: Lineage)
    requires NewestSnapshots(newest, models) && model in models
    ensures OfOlderSnapshot(models, model) <==> model.snapshot.Some? && newest[ReleaseOf(model)] != model.snapshot
  {
    if model.snapshot.Some? && newest[ReleaseOf(model)] != model.snapshot {
      var other :| other in models && ReleaseOf(other) == ReleaseOf(model)
          && other.snapshot == newest[ReleaseOf(model)];
      assert OfOlderSnapshot(models, model);
    }
  }

  lemma NewestAddedDecides(newest: map<Name, int>, models: seq<Lineage>, model: Lineage)
    requires NewestAdded(newest, models) && model in models
    ensures AddedEarlier(models, model) <==>
            model.added.Some? && model.added.value < if NameOf(model) in newest then newest[NameOf(model)] else 0
  {
  }

  ghost predicate OlderIds(models: seq<Lineage>, older: set<string>) {
    forall id :: id in older <==> exists model <- models :: model.id == id && Superseded(models, model)
  }

  /** What of the first models is left out. */
  ghost predicate LeftOut(models: seq<Lineage>, count: nat, older: set<string>) {
    && count <= |models|
    && forall id :: id in older <==> exists k | 0 <= k < count :: models[k].id == id && Superseded(models, models[k])
  }

  lemma LeftOutNext(models: seq<Lineage>, count: nat, older: set<string>, older': set<string>)
    requires count < |models| && LeftOut(models, count, older)
    requires older' == if Superseded(models, models[count]) then older + {models[count].id} else older
    ensures LeftOut(models, count + 1, older')
  {
  }

  lemma LeftOutAll(models: seq<Lineage>, older: set<string>)
    requires LeftOut(models, |models|, older)
    ensures OlderIds(models, older)
  {
    forall id ensures id in older <==> exists model <- models :: model.id == id && Superseded(models, model) {
      if model :| model in models && model.id == id && Superseded(models, model) {
        var k :| 0 <= k < |models| && models[k] == model;
      }
    }
  }

  /** By the three maps. */
  method IsSuperseded(
    newestGeneration: map<string, Generation>, newestSnapshot: map<Release, Option<nat>>, newestAdded: map<Name, int>,
    model: Lineage, ghost models: seq<Lineage>)
    returns (superseded: bool)
    requires NewestGenerations(newestGeneration, models) && NewestSnapshots(newestSnapshot, models)
    requires NewestAdded(newestAdded, models) && model in models
    ensures superseded == Superseded(models, model)
  {
    NewestGenerationDecides(newestGeneration, models, model);
    NewestSnapshotDecides(newestSnapshot, models, model);
    NewestAddedDecides(newestAdded, models, model);
    if model.generation.Some? && model.family in newestGeneration {
      var difference := CompareGenerations(model.generation.value, newestGeneration[model.family]);
      if difference < 0.0 {
        return true;
      }
    }
    var olderSnapshot := model.snapshot.Some? && newestSnapshot[ReleaseOf(model)] != model.snapshot;
    var addedEarlier := model.added.Some?
      && model.added.value < if NameOf(model) in newestAdded then newestAdded[NameOf(model)] else 0;
    return olderSnapshot || addedEarlier;
  }

  /** The ids of those left out. */
  method OlderBuilderModelIds(models: seq<Lineage>) returns (older: set<string>)
    ensures OlderIds(models, older)
  {
    var newestGeneration := FindNewestGenerations(models);
    var newestSnapshot := FindNewestSnapshots(models);
    var newestAdded := FindNewestAdded(models);
    older := {};
    for i := 0 to |models|
      invariant LeftOut(models, i, older)
    {
      ghost var before := older;
      var superseded := IsSuperseded(newestGeneration, newestSnapshot, newestAdded, models[i], models);
      if superseded {
        older := older + {models[i].id};
      }
      LeftOutNext(models, i, before, older);
    }
    LeftOutAll(models, older);
  }

  // ---------- What stays ----------

  /** The one is a reason to leave out the other. */
  ghost predicate Supersedes(other: Lineage, model: Lineage) {
    || (other.family == model.family && other.generation.Some? && model.generation.Some?
        && Older(model.generation.value, other.generation.value))
    || (ReleaseOf(other) == ReleaseOf(model) && model.snapshot.Some?
        && (other.snapshot.None? || other.snapshot.value > model.snapshot.value))
    || (NameOf(other) == NameOf(model) && other.added.Some? && model.added.Some?
        && other.added.value > model.added.value)
  }

  ghost predicate DatedBefore1970(model: Lineage) {
    model.added.Some? && model.added.value < 0
  }

  lemma SupersededBySome(models: seq<Lineage>, model: Lineage)
    ensures Superseded(models, model) <==>
            DatedBefore1970(model) || exists other <- models :: Supersedes(other, model)
  {
  }

  /** The three reasons together are a strict order. */
  lemma SupersedesIsAnOrder(a: Lineage, b: Lineage, c: Lineage)
    ensures !Supersedes(a, a)
    ensures Supersedes(a, b) && Supersedes(b, c) ==> Supersedes(a, c)
  {
    if a.generation.Some? && b.generation.Some? && c.generation.Some? {
      OlderIsAnOrder(c.generation.value, b.generation.value, a.generation.value);
    }
    if a.generation.Some? {
      OlderIsAnOrder(a.generation.value, a.generation.value, a.generation.value);
    }
  }

  ghost function Above(models: seq<Lineage>, model: Lineage): set<Lineage> {
    set other <- models | Supersedes(other, model)
  }

  /** Nothing listed supersedes it. */
  ghost predicate Newest(models: seq<Lineage>, model: Lineage) {
    model in models && Above(models, model) == {}
  }

  /** Whatever supersedes a model, something that nothing supersedes does. */
  lemma {:induction false} SomeNewest(models: seq<Lineage>, model: Lineage) returns (newest: Lineage)
    requires model in models
    ensures Newest(models, newest) && newest.family == model.family && (newest == model || Supersedes(newest, model))
    decreases |Above(models, model)|
  {
    if Above(models, model) == {} {
      return model;
    }
    var other :| other in Above(models, model);
    SupersedesIsAnOrder(other, other, model);
    forall above <- Above(models, other) ensures above in Above(models, model) {
      SupersedesIsAnOrder(above, other, model);
    }
    assert Above(models, other) < Above(models, model) by {
      assert other !in Above(models, other);
    }
    Fewer(Above(models, other), Above(models, model));
    newest := SomeNewest(models, other);
    SupersedesIsAnOrder(newest, other, model);
  }

  lemma Fewer(a: set<Lineage>, b: set<Lineage>)
    requires a < b
    ensures |a| < |b|
  {
    assert b == a + (b - a);
  }

  // ---------- What is offered ----------

  /** The models whose id is not among these. */
  function Without(models: seq<Lineage>, older: set<string>): seq<Lineage> {
    if models == [] then [] else
    var last := models[|models| - 1];
    Without(models[..|models| - 1], older) + if last.id in older then [] else [last]
  }

  lemma {:induction false} WithoutIs(models: seq<Lineage>, older: set<string>)
    ensures forall model :: model in Without(models, older) <==> model in models && model.id !in older
  {
    if models != [] {
      WithoutIs(models[..|models| - 1], older);
    }
  }

  ghost predicate DistinctIds(models: seq<Lineage>) {
    forall a, b | a in models && b in models && a.id == b.id :: a == b
  }

  /** Kept are the models none supersedes. */
  ghost predicate Keeps(models: seq<Lineage>, kept: seq<Lineage>) {
    forall model :: model in kept <==> model in models && !Superseded(models, model)
  }

  /**
   * Filtering by id keeps the models none supersedes, exactly when no id is both of one that is and of one that is
   * not.
   */
  lemma KeepsExactly(models: seq<Lineage>, older: set<string>)
    requires OlderIds(models, older)
    ensures Keeps(models, Without(models, older)) <==>
            forall a, b | a in models && b in models && a.id == b.id :: Superseded(models, a) ==> Superseded(models, b)
    ensures DistinctIds(models) ==> Keeps(models, Without(models, older))
  {
    WithoutIs(models, older);
    if forall a, b | a in models && b in models && a.id == b.id :: Superseded(models, a) ==> Superseded(models, b) {
      forall model | model in models && model.id in older ensures Superseded(models, model) {
        var a :| a in models && a.id == model.id && Superseded(models, a);
      }
    }
  }

  /** Asked again of the models it keeps, the answer is none, whatever the ids. */
  lemma OlderIdsAreGone(models: seq<Lineage>, older: set<string>, again: set<string>)
    requires OlderIds(models, older) && OlderIds(Without(models, older), again)
    ensures again == {}
  {
    var kept := Without(models, older);
    WithoutIs(models, older);
    forall model <- kept ensures !Superseded(kept, model) {
      SupersededBySome(kept, model);
      SupersededBySome(models, model);
    }
  }

  /** The models offered; asked again of these, nothing would be left out. */
  method CompatibleBuilderModels(models: seq<Lineage>) returns (offered: seq<Lineage>)
    ensures exists older :: OlderIds(models, older) && offered == Without(models, older)
    ensures DistinctIds(models) ==> Keeps(models, offered)
    ensures forall again | OlderIds(offered, again) :: again == {}
  {
    var older := OlderBuilderModelIds(models);
    offered := [];
    assert models[..|models|] == models;
    for i := 0 to |models|
      invariant offered == Without(models[..i], older)
    {
      assert models[..i + 1][..i] == models[..i];
      if models[i].id !in older {
        offered := offered + [models[i]];
      }
    }
    KeepsExactly(models, older);
    forall again | OlderIds(offered, again) ensures again == {} {
      OlderIdsAreGone(models, older, again);
    }
  }

  lemma NewestIsKept(models: seq<Lineage>, kept: seq<Lineage>, newest: Lineage)
    requires Keeps(models, kept) && Newest(models, newest) && !DatedBefore1970(newest)
    ensures newest in kept
  {
    SupersededBySome(models, newest);
    assert forall other <- models :: other !in Above(models, newest);
  }

  /** Each model left out is superseded by one that is kept, if none is dated before 1970. */
  lemma LeftOutForAKeptOne(models: seq<Lineage>, older: set<string>, model: Lineage)
    requires DistinctIds(models) && OlderIds(models, older) && model in models && model.id in older
    requires forall m <- models :: !DatedBefore1970(m)
    ensures exists other <- Without(models, older) :: Supersedes(other, model)
  {
    var newest := SomeNewest(models, model);
    KeepsExactly(models, older);
    WithoutIs(models, older);
    NewestIsKept(models, Without(models, older), newest);
  }

  /** Not left out for its generation or its snapshot. */
  ghost predicate Standing(models: seq<Lineage>, model: Lineage) {
    model in models && !OfOlderGeneration(models, model) && !OfOlderSnapshot(models, model)
  }

  /** A family keeps a model exactly when one that stands for its label is not dated before 1970. */
  lemma FamilySurvives(models: seq<Lineage>, older: set<string>, family: string)
    requires DistinctIds(models) && OlderIds(models, older)
    ensures (exists model <- Without(models, older) :: model.family == family) <==>
            exists model <- models :: model.family == family && Standing(models, model) && !DatedBefore1970(model)
  {
    KeepsExactly(models, older);
    if model :| model in models && model.family == family && Standing(models, model) && !DatedBefore1970(model) {
      var newest := SomeNewest(models, model);
      NewestIsKept(models, Without(models, older), newest);
    }
  }

  /** Dates that are not negative empty no family. */
  lemma NoFamilyIsEmptied(models: seq<Lineage>, older: set<string>, model: Lineage)
    requires DistinctIds(models) && OlderIds(models, older) && model in models
    requires forall m <- models | m.family == model.family :: !DatedBefore1970(m)
    ensures exists other <- Without(models, older) :: other.family == model.family
  {
    var newest := SomeNewest(models, model);
    KeepsExactly(models, older);
    NewestIsKept(models, Without(models, older), newest);
  }

  /** The answer does not depend on the order of the list, nor on repeats in it. */
  lemma OrderOfModelsIsFree(models: seq<Lineage>, models': seq<Lineage>, older: set<string>, older': set<string>)
    requires forall m :: m in models <==> m in models'
    requires OlderIds(models, older) && OlderIds(models', older')
    ensures older == older'
  {
    forall model ensures Superseded(models, model) <==> Superseded(models', model) {
      SupersededBySome(models, model);
      SupersededBySome(models', model);
    }
    forall id ensures id in older <==> id in older' {
      assert (exists m <- models :: m.id == id && Superseded(models, m))
        <==> (exists m <- models' :: m.id == id && Superseded(models', m));
    }
  }

  /** A model the catalog dates before 1970 is left out even with nothing newer listed, and its family with it. */
  lemma NegativeDateEmptiesItsFamily(model: Lineage, older: set<string>)
    requires DatedBefore1970(model) && OlderIds([model], older)
    ensures Without([model], older) == []
  {
    assert model in [model];
    assert model.id in older;
    assert [model][..0] == [];
  }

  /** Two models of one id, of which the second supersedes the first: both are left out, and with them their family. */
  lemma SharedIdEmptiesItsFamily(first: Lineage, second: Lineage, older: set<string>)
    requires first.id == second.id && Supersedes(second, first) && OlderIds([first, second], older)
    ensures Without([first, second], older) == []
  {
    var models := [first, second];
    assert first in models && second in models;
    SupersededBySome(models, first);
    assert first.id in older;
    assert models[..1] == [first] && [first][..0] == [];
    assert Without([first], older) == [];
  }
}
