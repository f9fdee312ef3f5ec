/**
 * The normalised entity collection kept by the employee store: an ordered
 * sequence of ids and a map from id to record, keyed by `employee.id`.
 * The five adapter operations the reducer uses are given their observable
 * meaning here; the adapter library's own code is not part of this model.
 */
module EntityAdapter {
  import opened Collections
  import opened EmployeeModel

  datatype EntityState = EntityState(ids: seq<string>, entities: map<string, Employee>)

  /** The adapter's id selector: a record is keyed by its `id` property. */
  function SelectId(e: Employee): string {
    e.id
  }

  /**
   * The store invariant: ids are distinct, the ids are exactly the keys of
   * the map, and every record is stored under its own id.
   */
  ghost predicate Valid(s: EntityState) {
    && Distinct(s.ids)
    && (forall k :: k in s.ids <==> k in s.entities)
    && (forall k :: k in s.entities ==> SelectId(s.entities[k]) == k)
  }

  /** The empty collection. */
  function Empty(): (s: EntityState)
    ensures Valid(s)
    ensures |s.ids| == 0 && s.entities == map[]
  {
    EntityState([], map[])
  }

  /**
   * `addOne`: a record whose id is new is appended to the order and stored
   * under its id; a record whose id is already stored is ignored.
   */
  function AddOne(s: EntityState, e: Employee): (r: EntityState)
    ensures Valid(s) ==> Valid(r)
    ensures SelectId(e) in s.entities ==> r == s
    ensures SelectId(e) !in s.entities ==> r.ids == s.ids + [SelectId(e)]
    ensures SelectId(e) in r.entities && r.entities.Keys == s.entities.Keys + {SelectId(e)}
    ensures SelectId(e) !in s.entities ==> r.entities[SelectId(e)] == e
    ensures forall k :: k in s.entities ==> r.entities[k] == s.entities[k]
  {
    var k := SelectId(e);
    if k in s.entities then s
    else
      var r := EntityState(s.ids + [k], s.entities[k := e]);
      assert Valid(s) ==> Distinct(r.ids) by {
        if Valid(s) {
          forall i, j | 0 <= i < j < |r.ids| ensures r.ids[i] != r.ids[j] {
            if j == |s.ids| {
              assert r.ids[i] == s.ids[i];
            }
          }
        }
      }
      r
  }

  /** `es[i]` is the first record of `es` carrying its id. */
  ghost predicate FirstWithId(es: seq<Employee>, i: int) {
    0 <= i < |es| && forall j :: 0 <= j < i ==> es[j].id != es[i].id
  }

  /**
   * `setAll`: the collection is emptied and the records are added one by
   * one in order, so a repeated id keeps its first record.
   */
  function SetAll(es: seq<Employee>): (r: EntityState)
    ensures Valid(r)
    ensures r.ids == Dedup(Ids(es))
    ensures forall i :: 0 <= i < |es| ==> es[i].id in r.entities
    ensures forall i :: FirstWithId(es, i) ==> r.entities[es[i].id] == es[i]
    decreases |es|
  {
    if |es| == 0 then Empty()
    else
      var init, last := es[..|es| - 1], es[|es| - 1];
      assert es == init + [last];
      var p := SetAll(init);
      AddManyIds(init, last, p);
      AddManyRecords(init, last, p);
      AddOne(p, last)
  }

  /** The order after one more `addOne` step of `setAll` is the de-duplicated id list. */
  lemma AddManyIds(init: seq<Employee>, last: Employee, p: EntityState)
    requires Valid(p)
    requires p.ids == Dedup(Ids(init))
    ensures AddOne(p, last).ids == Dedup(Ids(init + [last]))
  {
    var es := init + [last];
    assert Ids(es)[..|es| - 1] == Ids(init);
    assert Ids(es)[|es| - 1] == last.id;
  }

  /** After one more `addOne` step of `setAll`, every id is stored with its first record. */
  lemma AddManyRecords(init: seq<Employee>, last: Employee, p: EntityState)
    requires Valid(p)
    requires p.ids == Dedup(Ids(init))
    requires forall i :: 0 <= i < |init| ==> init[i].id in p.entities
    requires forall i :: FirstWithId(init, i) ==> p.entities[init[i].id] == init[i]
    ensures var es, r := init + [last], AddOne(p, last);
      && (forall i :: 0 <= i < |es| ==> es[i].id in r.entities)
      && (forall i :: FirstWithId(es, i) ==> r.entities[es[i].id] == es[i])
  {
    var es := init + [last];
    var n := |es|;
    var r := AddOne(p, last);
    forall i | 0 <= i < n ensures es[i].id in r.entities {
      if i < n - 1 {
        assert es[i] == init[i];
      }
    }
    forall i | FirstWithId(es, i) ensures r.entities[es[i].id] == es[i] {
      if i < n - 1 {
        assert es[i] == init[i];
        assert FirstWithId(init, i) by {
          forall j | 0 <= j < i ensures init[j].id != init[i].id {
            assert es[j] == init[j];
          }
        }
      } else {
        assert last.id !in p.ids by {
          forall j | 0 <= j < n - 1 ensures Ids(init)[j] != last.id {
            assert es[j] == init[j];
          }
        }
      }
    }
  }

  /**
   * `updateOne({ id: e.id, changes: e })`: the stored record at `e.id` is
   * merged with `e`; when no record has that id nothing changes.
   */
  function UpdateOne(s: EntityState, e: Employee): (r: EntityState)
    ensures Valid(s) ==> Valid(r)
    ensures r.ids == s.ids
    ensures r.entities.Keys == s.entities.Keys
    ensures SelectId(e) in s.entities ==> r.entities[SelectId(e)] == e
    ensures SelectId(e) !in s.entities ==> r == s
    ensures forall k :: k in s.entities && k != SelectId(e) ==> r.entities[k] == s.entities[k]
  {
    var k := SelectId(e);
    if k in s.entities then
      ApplyAllChanges(s.entities[k], e);
      EntityState(s.ids, s.entities[k := Apply(s.entities[k], AllChanges(e))])
    else s
  }

  /** `upsertOne`: update the record at `e.id` when it is stored, otherwise add it. */
  function UpsertOne(s: EntityState, e: Employee): (r: EntityState)
    ensures Valid(s) ==> Valid(r)
    ensures SelectId(e) in r.entities && r.entities[SelectId(e)] == e
    ensures r.entities.Keys == s.entities.Keys + {SelectId(e)}
    ensures SelectId(e) in s.entities ==> r.ids == s.ids
    ensures SelectId(e) !in s.entities ==> r.ids == s.ids + [SelectId(e)]
    ensures forall k :: k in s.entities && k != SelectId(e) ==> r.entities[k] == s.entities[k]
  {
    if SelectId(e) in s.entities then UpdateOne(s, e) else AddOne(s, e)
  }

  /**
   * `removeOne`: when `key` is stored its record is deleted and the order
   * keeps exactly the ids that still have a record; otherwise nothing changes.
   */
  function RemoveOne(s: EntityState, key: string): (r: EntityState)
    ensures Valid(s) ==> Valid(r)
    ensures key !in r.entities
    ensures r.entities.Keys == s.entities.Keys - {key}
    ensures forall k :: k in r.entities ==> r.entities[k] == s.entities[k]
    ensures Valid(s) ==> r.ids == Filter(s.ids, k => k != key)
    ensures Valid(s) && key in s.entities ==> |r.ids| == |s.ids| - 1
  {
    if key in s.entities then
      var entities := s.entities - {key};
      var r := EntityState(Filter(s.ids, k => k in entities), entities);
      assert Valid(s) ==> Valid(r) && r.ids == Filter(s.ids, k => k != key) && |r.ids| == |s.ids| - 1 by {
        if Valid(s) {
          FilterDistinct(s.ids, k => k in entities);
          FilterRemovesKey(s.ids, s.entities, key);
          RemoveShortens(s.ids, key);
        }
      }
      r
    else
      assert Valid(s) ==> s.ids == Filter(s.ids, k => k != key) by {
        if Valid(s) {
          FilterKeepsAll(s.ids, k => k != key);
        }
      }
      s
  }

  /** On ids that all have a record, keeping those still stored after deleting `key` is deleting `key`. */
  lemma {:induction false} FilterRemovesKey(ids: seq<string>, m: map<string, Employee>, key: string)
    requires forall i :: 0 <= i < |ids| ==> ids[i] in m
    ensures Filter(ids, k => k in m - {key}) == Filter(ids, k => k != key)
    decreases |ids|
  {
    if |ids| > 0 {
      FilterRemovesKey(ids[1..], m, key);
    }
  }

  /** Deleting a value that occurs exactly once shortens a distinct sequence by one. */
  lemma {:induction false} RemoveShortens(ids: seq<string>, key: string)
    requires Distinct(ids) && key in ids
    ensures |Filter(ids, k => k != key)| == |ids| - 1
    decreases |ids|
  {
    DistinctCons(ids[0], ids[1..]);
    assert [ids[0]] + ids[1..] == ids;
    if ids[0] == key {
      FilterKeepsAll(ids[1..], k => k != key);
    } else {
      RemoveShortens(ids[1..], key);
    }
  }
}
