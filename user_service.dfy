/** The user directory: administrators add, list and delete users; the other
    services resolve users by id, one at a time or all at once. An email
    address belongs to at most one user. */
module UserService {
  import opened Common
  import opened Table
  import opened Paging

  /** The stored user (`UserDto` carries the same three fields). */
  datatype User = User(id: int, name: string, email: string)

  function UserKey(u: User): int { u.id }

  /** `toUserShortDto`. */
  function ToShort(u: User): UserShort {
    UserShort(u.id, u.name)
  }

  /** No two users share an email address. */
  predicate UniqueEmails(rows: seq<User>) {
    forall i, j :: 0 <= i < j < |rows| ==> rows[i].email != rows[j].email
  }

  /** `existsByEmail`. */
  function ExistsByEmail(rows: seq<User>, email: string): (b: bool)
    ensures b <==> exists i :: 0 <= i < |rows| && rows[i].email == email
  {
    if rows == [] then false
    else
      var t := ExistsByEmail(rows[1..], email);
      assert forall i :: 1 <= i < |rows| ==> rows[i] == rows[1..][i - 1];
      rows[0].email == email || t
  }

  /** The user table: rows in storage order and the next generated id. */
  class UserStore {
    var rows: seq<User>
    var nextId: int

    ghost predicate Valid()
      reads this
    {
      && UniqueKeys(rows, UserKey)
      && UniqueEmails(rows)
      && forall i :: 0 <= i < |rows| ==> rows[i].id < nextId
    }

    constructor ()
      ensures Valid() && rows == [] && nextId == 1
    {
      rows := [];
      nextId := 1;
    }

    /** `save` of a new user whose email is not taken: the table generates
        its id. */
    method Insert(name: string, email: string) returns (saved: User)
      requires Valid() && !ExistsByEmail(rows, email)
      modifies this
      ensures Valid()
      ensures saved == User(old(nextId), name, email)
      ensures rows == old(rows) + [saved] && nextId == old(nextId) + 1
    {
      saved := User(nextId, name, email);
      rows := rows + [saved];
      nextId := nextId + 1;
    }

    /** `deleteById`: every other row stays, in order. */
    method DeleteById(id: int)
      requires Valid()
      modifies this
      ensures Valid()
      ensures rows == RemoveById(old(rows), UserKey, id) && nextId == old(nextId)
    {
      var kept := RemoveById(rows, UserKey, id);
      RemoveByIdKeepsUniqueKeys(rows, UserKey, id);
      FilterKeepsUniqueEmails(rows, x => UserKey(x) != id);
      KeptRowsStayValid(rows, kept, nextId);
      rows := kept;
    }
  }

  /** Rows kept from a valid table keep ids below `nextId`. */
  lemma KeptRowsStayValid(rows: seq<User>, kept: seq<User>, nextId: int)
    requires forall x :: x in kept ==> x in rows
    requires forall i :: 0 <= i < |rows| ==> rows[i].id < nextId
    ensures forall i :: 0 <= i < |kept| ==> kept[i].id < nextId
  {
    forall i | 0 <= i < |kept| ensures kept[i].id < nextId {
      assert kept[i] in rows;
    }
  }

  /** Filtering a table keeps its emails distinct. */
  lemma {:induction false} FilterKeepsUniqueEmails(rows: seq<User>, p: User -> bool)
    requires UniqueEmails(rows)
    ensures UniqueEmails(Filter(rows, p))
  {
    if rows != [] {
      assert UniqueEmails(rows[1..]) by {
        forall i, j | 0 <= i < j < |rows[1..]| ensures rows[1..][i].email != rows[1..][j].email {
          assert rows[1..][i] == rows[i + 1] && rows[1..][j] == rows[j + 1];
        }
      }
      FilterKeepsUniqueEmails(rows[1..], p);
      var tail := Filter(rows[1..], p);
      if p(rows[0]) {
        forall y | y in tail ensures y.email != rows[0].email {
          var k :| 1 <= k < |rows| && rows[k] == y;
        }
      }
    }
  }

  /** `add`: Duplicate when the email is taken, otherwise exactly one new
      user is stored, under the next generated id. */
  method Add(store: UserStore, name: string, email: string) returns (r: Result<User>)
    requires store.Valid()
    modifies store
    ensures store.Valid()
    ensures r.Failure? <==> (exists i :: 0 <= i < |old(store.rows)| && old(store.rows)[i].email == email)
    ensures r.Failure? ==> r.error == Duplicate && store.rows == old(store.rows) && store.nextId == old(store.nextId)
    ensures r.Success? ==> r.value == User(old(store.nextId), name, email)
                           && store.rows == old(store.rows) + [r.value] && store.nextId == old(store.nextId) + 1
  {
    if ExistsByEmail(store.rows, email) {
      return Failure(Duplicate);
    }
    var saved := store.Insert(name, email);
    r := Success(saved);
  }

  /** `delete`: NotFound for an unknown id, otherwise exactly that user is
      removed. */
  method Delete(store: UserStore, id: int) returns (o: Outcome)
    requires store.Valid()
    modifies store
    ensures store.Valid() && store.nextId == old(store.nextId)
    ensures o.Fail? <==> !HasKey(old(store.rows), UserKey, id)
    ensures o.Fail? ==> o.error == NotFound([id]) && store.rows == old(store.rows)
    ensures o.Pass? ==> store.rows == RemoveById(old(store.rows), UserKey, id)
                        && |store.rows| == |old(store.rows)| - 1
  {
    if !HasKey(store.rows, UserKey, id) {
      return Fail(NotFound([id]));
    }
    RemoveByIdRemovesOne(store.rows, UserKey, id);
    store.DeleteById(id);
    o := Pass;
  }

  /** `getById`. */
  function GetById(rows: seq<User>, id: int): (r: Result<UserShort>)
    ensures r.Failure? <==> !HasKey(rows, UserKey, id)
    ensures r.Failure? ==> r.error == NotFound([id])
    ensures r.Success? ==> r.value.id == id && exists u :: u in rows && r.value == ToShort(u)
  {
    match FindById(rows, UserKey, id)
    case Some(u) => Success(ToShort(u))
    case None => Failure(NotFound([id]))
  }

  function ShortAll(users: seq<User>): (r: seq<UserShort>)
    ensures |r| == |users| && forall i :: 0 <= i < |users| ==> r[i] == ToShort(users[i])
  {
    seq(|users|, i requires 0 <= i < |users| => ToShort(users[i]))
  }

  /** `getByIds`: NotFound naming every missing id, in the order they were
      asked for; otherwise the users found, in storage order. */
  function GetByIds(rows: seq<User>, ids: seq<int>): (r: Result<seq<UserShort>>)
    ensures r.Failure? ==> r.error == NotFound(MissingIds(rows, UserKey, ids)) && r.error.ids != []
    ensures r.Failure? ==> forall id :: id in r.error.ids <==> id in ids && !HasKey(rows, UserKey, id)
    ensures r.Success? <==> forall id :: id in ids ==> HasKey(rows, UserKey, id)
    ensures r.Success? ==> r.value == ShortAll(FindAllByIdIn(rows, UserKey, ids))
  {
    match Table.GetByIds(rows, UserKey, ids)
    case Failure(err) => Failure(err)
    case Success(found) => Success(ShortAll(found))
  }

  /** Asking for one id at a time or for a list of one agree. */
  lemma GetByIdsOfOne(rows: seq<User>, id: int)
    requires UniqueKeys(rows, UserKey)
    ensures GetByIds(rows, [id]).Success? <==> GetById(rows, id).Success?
    ensures GetById(rows, id).Failure? ==> GetByIds(rows, [id]).error == GetById(rows, id).error
    ensures GetById(rows, id).Success? ==> GetByIds(rows, [id]).value == [GetById(rows, id).value]
  {
    if HasKey(rows, UserKey, id) {
      var j :| 0 <= j < |rows| && UserKey(rows[j]) == id;
      FindByIdUnique(rows, UserKey, j);
      FindAllByIdInOneKey(rows, UserKey, [id], j);
    } else {
      assert MissingIds(rows, UserKey, [id]) == [id] by {
        var m := MissingIds(rows, UserKey, [id]);
        assert id in m;
        assert |m| <= 1;
        assert m[0] in m;
      }
    }
  }

  /** The query `getAll` pages: the listed users, or the whole table when no
      ids are given. */
  function UsersQuery(rows: seq<User>, ids: seq<int>): (r: seq<User>)
    ensures forall x :: x in r <==> x in rows && (ids != [] ==> x.id in ids)
    ensures ids == [] ==> r == rows
  {
    if ids != [] then FindAllByIdIn(rows, UserKey, ids) else rows
  }

  /** `getAll`: `size == 0` drops the first `from` users of the query,
      `from < size` returns page `from / size` of it (always the first),
      anything else nothing. */
  function GetAll(rows: seq<User>, ids: seq<int>, from: nat, size: nat): (r: seq<User>)
    ensures forall x :: x in r ==> x in rows && (ids != [] ==> x.id in ids)
    ensures size == 0 ==> r == Skip(UsersQuery(rows, ids), from)
    ensures 0 < size && from < size ==> r == UsersQuery(rows, ids)[..Min(size, |UsersQuery(rows, ids)|)]
    ensures 0 < size <= from ==> r == []
    ensures ids == [] && size == 0 && from == 0 ==> r == rows
  {
    var q := UsersQuery(rows, ids);
    if size == 0 then Skip(q, from)
    else if from < size then
      PagedIsPrefix(q, from, size);
      PageOf(q, from / size, size)
    else []
  }

  /** A stored user is found by id; a deleted one is not. */
  lemma AddThenGet(rows: seq<User>, u: User)
    requires !HasKey(rows, UserKey, u.id)
    ensures GetById(rows + [u], u.id) == Success(ToShort(u))
    ensures GetById(RemoveById(rows + [u], UserKey, u.id), u.id).Failure?
  {
    FindByIdAppend(rows, u);
  }

  lemma {:induction false} FindByIdAppend(rows: seq<User>, u: User)
    requires !HasKey(rows, UserKey, u.id)
    ensures FindById(rows + [u], UserKey, u.id) == Some(u)
  {
    if rows != [] {
      assert (rows + [u])[1..] == rows[1..] + [u];
      assert forall i :: 0 <= i < |rows[1..]| ==> rows[1..][i] == rows[i + 1];
      FindByIdAppend(rows[1..], u);
    }
  }
}
