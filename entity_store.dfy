/** One entity kind of the key-value store: a state blob per id plus an index of ids in
    creation order. Only the operations the route handlers call are modelled: `exists`,
    `create`, `getState`, `list` and a read-modify-write `patch`/`mutate`. */
module EntityStore {
  import opened Wrappers
  import opened Seqs

  datatype StoreError = AlreadyExists | NotFound

  class IndexedEntity<T> {
    /** The names under which the kind's blobs and its index are stored. */
    const entityName: string
    const indexName: string
    var states: map<string, T>
    var index: seq<string>

    /** Every stored id is indexed exactly once, and every indexed id has a blob. */
    ghost predicate Valid()
      reads this
    {
      NoDuplicates(index) && forall id :: id in states <==> id in index
    }

    constructor (entityName: string, indexName: string)
      ensures Valid()
      ensures this.entityName == entityName && this.indexName == indexName
      ensures states == map[] && index == []
    {
      this.entityName := entityName;
      this.indexName := indexName;
      states := map[];
      index := [];
    }

    /** `exists`: a blob is stored under the id, which under `Valid` is the same as the id
        being indexed. */
    predicate Exists(id: string)
      reads this
      ensures Valid() ==> (Exists(id) <==> id in index)
    {
      id in states
    }

    /** `getState`: the stored blob, or `NotFound`. */
    function GetState(id: string): (r: Result<T, StoreError>)
      reads this
      ensures r.Success? <==> Exists(id)
      ensures r.Failure? ==> r.error == NotFound
    {
      if id in states then Success(states[id]) else Failure(NotFound)
    }

    /** `list`: the blobs in index (creation) order. */
    function Items(): (items: seq<T>)
      reads this
      requires Valid()
      ensures |items| == |index|
      ensures forall k :: 0 <= k < |index| ==> index[k] in states && items[k] == states[index[k]]
    {
      var ids, blobs := index, states;
      seq(|ids|, k requires 0 <= k < |ids| => blobs[ids[k]])
    }

    /** `create`: fails with `AlreadyExists` and changes nothing when the id is taken;
        otherwise stores the blob and appends the id to the index. */
    method Create(id: string, v: T) returns (r: Result<T, StoreError>)
      requires Valid()
      modifies this
      ensures Valid()
      ensures old(Exists(id)) ==> r == Failure(AlreadyExists) && states == old(states) && index == old(index)
      ensures !old(Exists(id)) ==> r == Success(v) && states == old(states)[id := v] && index == old(index) + [id]
      ensures Items() == if r.Success? then old(Items()) + [v] else old(Items())
      ensures GetState(id) == if r.Success? then Success(v) else old(GetState(id))
    {
      if id in states {
        r := Failure(AlreadyExists);
      } else {
        ghost var before := Items();
        states := states[id := v];
        index := index + [id];
        r := Success(v);
        assert Items() == before + [v];
      }
    }

    /** `mutate` (and `patch`, whose partial record merged into the current state is the
        update `f`): fails with `NotFound` when the id is absent; otherwise replaces the
        blob by `f` of it. The index and every other blob are untouched. */
    method Mutate(id: string, f: T -> T) returns (r: Result<T, StoreError>)
      requires Valid()
      modifies this
      ensures Valid()
      ensures index == old(index)
      ensures !old(Exists(id)) ==> r == Failure(NotFound) && states == old(states)
      ensures old(Exists(id)) ==> r == Success(f(old(states[id]))) && states == old(states)[id := f(old(states[id]))]
      ensures forall other :: other != id ==> GetState(other) == old(GetState(other))
    {
      if id in states {
        var v := f(states[id]);
        states := states[id := v];
        r := Success(v);
      } else {
        r := Failure(NotFound);
      }
    }
  }
}
