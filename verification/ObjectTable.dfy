/** CObjectManager: objects are released by leaving a null in the map, which a later sweep removes. */
module ObjectTable {
  import opened Options

  type Obj = nat

  /** The plain map a client sees: tombstones do not count. */
  ghost function Live(objects: map<nat, Option<Obj>>): map<nat, Obj> {
    map d | d in objects && objects[d].Some? :: objects[d].value
  }

  ghost predicate Injective(m: map<nat, Obj>) {
    forall a, b :: a in m && b in m && a != b ==> m[a] != m[b]
  }

  datatype Op = Release(dnid: nat) | Sweep

  class ObjectManager {
    var objects: map<nat, Option<Obj>>  // m_ObjectMap; None is a null pointer
    var removeList: seq<nat>
    ghost var deleted: seq<Obj>         // everything passed to delete

    /** Each live object is held once, and nothing deleted is held or deleted again. */
    ghost predicate Valid()
      reads this
    {
      && removeList == []
      && Injective(Live(objects))
      && (forall d :: d in Live(objects) ==> Live(objects)[d] !in deleted)
      && (forall i, j :: 0 <= i < j < |deleted| ==> deleted[i] != deleted[j])
    }

    constructor (initial: map<nat, Obj>)
      requires Injective(initial)
      ensures Valid() && Live(objects) == initial && deleted == []
    {
      objects := map d | d in initial :: Some(initial[d]);
      removeList := [];
      deleted := [];
    }

    function Locate(gid: nat): (r: Option<Obj>)
      reads this
      ensures r == if gid in Live(objects) then Some(Live(objects)[gid]) else None
    {
      if gid in objects then objects[gid] else None
    }

    method RealseObject(dnid: nat) returns (ok: bool)
      requires Valid()
      modifies this`objects, this`deleted
      ensures Valid()
      ensures ok == (dnid in old(Live(objects)))
      ensures Live(objects) == old(Live(objects)) - {dnid}
      ensures deleted == old(deleted) + if ok then [old(Live(objects))[dnid]] else []
    {
      var found := Locate(dnid);
      if found.None? {
        assert Live(objects) == Live(objects) - {dnid};
        return false;
      }
      ghost var before := Live(objects);
      deleted := deleted + [found.value];
      objects := objects[dnid := None];
      assert Live(objects) == before - {dnid};
      ok := true;
    }

    /** Run: collect the keys of tombstones, then erase them. */
    method Run()
      requires Valid()
      modifies this`objects, this`removeList
      ensures Valid()
      // No answer of Locate changes, and every tombstone is gone.
      ensures Live(objects) == old(Live(objects)) && objects.Keys == Live(objects).Keys
      ensures forall gid :: Locate(gid) == old(Locate(gid))
    {
      var todo := objects.Keys;
      while todo != {}
        modifies this`removeList
        invariant todo <= objects.Keys
        invariant forall d :: d in removeList <==> d in objects && d !in todo && objects[d].None?
        decreases |todo|
      {
        var d :| d in todo;
        if objects[d].None? {
          removeList := removeList + [d];
        }
        todo := todo - {d};
      }
      ghost var before := Live(objects);
      while |removeList| > 0
        modifies this`objects, this`removeList
        invariant Live(objects) == before
        invariant forall d :: d in objects && objects[d].None? ==> d in removeList
        invariant forall d :: d in removeList ==> d !in before
        decreases |removeList|
      {
        var d := removeList[0];
        assert removeList == [d] + removeList[1..];
        if d in objects {
          objects := objects - {d};
        }
        assert Live(objects) == before;
        removeList := removeList[1..];
      }
      assert objects.Keys == Live(objects).Keys;
      forall gid ensures Locate(gid) == old(Locate(gid)) {
        LocateIsLookup(objects, gid);
        LocateIsLookup(old(objects), gid);
      }
    }
  }

  lemma LocateIsLookup(objects: map<nat, Option<Obj>>, gid: nat)
    ensures (if gid in objects then objects[gid] else None)
         == (if gid in Live(objects) then Some(Live(objects)[gid]) else None)
  {
  }

  function Released(ops: seq<Op>): set<nat> {
    if ops == [] then {}
    else Released(ops[..|ops| - 1]) + match ops[|ops| - 1] case Release(d) => {d} case Sweep => {}
  }

  /** Any run of releases and sweeps, in any order: afterwards the map holds what was not released, every object
      released was deleted, and none was deleted twice. */
  method Drive(initial: map<nat, Obj>, ops: seq<Op>) returns (objects: map<nat, Option<Obj>>, ghost deleted: seq<Obj>)
    requires forall a, b :: a in initial && b in initial && a != b ==> initial[a] != initial[b]
    ensures Live(objects) == initial - Released(ops)
    ensures forall i, j :: 0 <= i < j < |deleted| ==> deleted[i] != deleted[j]
    ensures forall o :: o in deleted <==> exists d :: d in initial && d in Released(ops) && initial[d] == o
  {
    var manager := new ObjectManager(initial);
    assert initial - {} == initial;
    for i := 0 to |ops|
      invariant fresh(manager) && manager.Valid()
      invariant Live(manager.objects) == initial - Released(ops[..i])
      invariant forall o :: o in manager.deleted <==> exists d :: d in initial && d in Released(ops[..i]) && initial[d] == o
    {
      assert ops[..i + 1][..i] == ops[..i];
      match ops[i]
      case Release(d) => var ok := manager.RealseObject(d);
      case Sweep => manager.Run();
    }
    assert ops[..|ops|] == ops;
    objects, deleted := manager.objects, manager.deleted;
  }
}
