/**
 * RegistrationRequestDao: the request store as a table from id to the stored entity
 * object. The persistence context hands out the managed object itself, so a change a
 * caller makes to a fetched request is a change to the stored record.
 */
module Dao {
  import opened Wrappers
  import opened Model

  /** The creation time of a record; every stored record has one (see Valid). */
  function DateOf(r: RegistrationRequest): int
    reads r
  {
    if r.createdDate.Some? then r.createdDate.value else 0
  }

  /** Length of the longest string in `keys`. */
  ghost function MaxLength(keys: set<string>): (n: nat)
    ensures forall k :: k in keys ==> |k| <= n
    decreases keys
  {
    if keys == {} then 0
    else
      var k :| k in keys;
      var m := MaxLength(keys - {k});
      if |k| > m then |k| else m
  }

  /** There is always an id that no stored record uses, which `UUID.randomUUID` stands for. */
  lemma FreshIdExists(keys: set<string>)
    ensures exists id :: id !in keys
  {
    var id := seq(MaxLength(keys) + 1, _ => 'x');
    assert id !in keys;
  }

  /** A non-empty set of records has one whose creation time is no earlier than any other's. */
  lemma {:induction false} NewestExists(records: set<RegistrationRequest>)
    requires records != {}
    ensures exists m :: m in records && forall o :: o in records ==> DateOf(o) <= DateOf(m)
  {
    var x :| x in records;
    if records != {x} {
      var rest := records - {x};
      NewestExists(rest);
      var m :| m in rest && forall o :: o in rest ==> DateOf(o) <= DateOf(m);
      if DateOf(m) < DateOf(x) {
        assert forall o :: o in records ==> DateOf(o) <= DateOf(x);
      } else {
        assert forall o :: o in records ==> DateOf(o) <= DateOf(m);
      }
    }
  }

  /** No record occurs twice in `rs`. */
  ghost predicate Distinct(rs: seq<RegistrationRequest>) {
    forall i, j :: 0 <= i < j < |rs| ==> rs[i] != rs[j]
  }

  /** `rs` is ordered by creation time, newest first. */
  ghost predicate NewestFirst(rs: seq<RegistrationRequest>)
    reads set r | r in rs
  {
    forall i, j :: 0 <= i < j < |rs| ==> DateOf(rs[j]) <= DateOf(rs[i])
  }

  class RegistrationRequestDao {
    /** The stored records, by id. */
    var table: map<string, RegistrationRequest>

    /**
     * Every stored record has an id and a creation date, and its own id leads back
     * to it. (A record that was stored again keeps its earlier key as well.)
     */
    ghost predicate Valid()
      reads this, table.Values
    {
      forall r :: r in table.Values ==>
        && r.createdDate.Some?
        && r.id.Some?
        && r.id.value in table
        && table[r.id.value] == r
    }

    constructor ()
      ensures Valid() && table == map[]
    {
      table := map[];
    }

    /**
     * `create`: overwrites the id of `request` with a fresh one, fills in its creation
     * date with `now` when it has none, stores it under the new id and returns that id.
     */
    method Create(request: RegistrationRequest, now: int) returns (id: string)
      requires Valid()
      modifies this, request
      ensures Valid()
      ensures id !in old(table)
      ensures table == old(table)[id := request]
      ensures GetById(id) == request
      ensures request.id == Some(id)
      ensures request.createdDate == if old(request.createdDate).Some? then old(request.createdDate) else Some(now)
      ensures request.email == old(request.email) && request.fullname == old(request.fullname)
      ensures request.message == old(request.message) && request.status == old(request.status)
    {
      FreshIdExists(table.Keys);
      var uuid :| uuid !in table;
      var self := request.SetId(Some(uuid));
      var createdDate := if request.createdDate.Some? then request.createdDate else Some(now);
      self := request.SetCreatedDate(createdDate);
      table := table[uuid := request];
      id := request.id.value;
    }

    /** `getById`: the record stored under `id`, or null. Reading changes nothing. */
    function GetById(id: string): (r: RegistrationRequest?)
      reads this
      ensures r == null <==> id !in table
      ensures r != null ==> r in table.Values && r == table[id]
    {
      if id in table then table[id] else null
    }

    /**
     * `findAll`: every stored record exactly once, newest first. Records created at
     * the same instant may come in any order, as the query leaves them unordered.
     */
    method FindAll() returns (rs: seq<RegistrationRequest>)
      ensures forall r :: r in rs <==> r in table.Values
      ensures Distinct(rs)
      ensures NewestFirst(rs)
    {
      var remaining := table.Values;
      rs := [];
      while remaining != {}
        invariant remaining <= table.Values
        invariant forall r :: r in rs ==> r in table.Values && r !in remaining
        invariant forall r :: r in table.Values ==> r in rs || r in remaining
        invariant Distinct(rs)
        invariant NewestFirst(rs)
        invariant forall i, o :: 0 <= i < |rs| && o in remaining ==> DateOf(o) <= DateOf(rs[i])
        decreases remaining
      {
        NewestExists(remaining);
        var newest :| newest in remaining && forall o :: o in remaining ==> DateOf(o) <= DateOf(newest);
        rs := rs + [newest];
        remaining := remaining - {newest};
      }
    }

    /**
     * `getLatestByEmail`: null when no stored record has that email, otherwise a
     * record with that email created no earlier than any other with that email.
     */
    method GetLatestByEmail(email: string) returns (r: RegistrationRequest?)
      ensures r == null <==> forall o :: o in table.Values ==> o.email != email
      ensures r != null ==> r in table.Values && r.email == email
      ensures r != null ==> forall o :: o in table.Values && o.email == email ==> DateOf(o) <= DateOf(r)
    {
      var matching := set o | o in table.Values && o.email == email;
      if matching == {} {
        forall o | o in table.Values ensures o.email != email {
          assert o !in matching;
        }
        r := null;
      } else {
        NewestExists(matching);
        var latest :| latest in matching && forall o :: o in matching ==> DateOf(o) <= DateOf(latest);
        r := latest;
      }
    }
  }
}
