/**
 * The in-memory user and inspection tables (data/db.ts): two module-level
 * arrays that `createUser` and `scheduleInspection` push onto, and pure
 * queries over them.
 */
module Db {
  import opened Wrappers
  import opened Records
  import opened Strings
  import Seqs

  // ---------------------------------------------------------------------------
  // Invariants of the user table
  // ---------------------------------------------------------------------------

  /** The id a user created in position `i` receives: `user-${i}`. */
  function UserId(i: nat): (id: string)
    ensures |id| > 5 && id[..5] == "user-"
  {
    "user-" + NatToString(i)
  }

  /** Every user carries the id of its position, as `createUser` hands them out. */
  predicate PositionalIds(users: seq<User>)
  {
    forall i :: 0 <= i < |users| ==> users[i].id == UserId(i)
  }

  predicate DistinctUsernames(users: seq<User>)
  {
    forall i, j :: 0 <= i < j < |users| ==> users[i].username != users[j].username
  }

  predicate DistinctUserIds(users: seq<User>)
  {
    forall i, j :: 0 <= i < j < |users| ==> users[i].id != users[j].id
  }

  /** Ids handed out by position are pairwise distinct. */
  lemma PositionalIdsAreDistinct(users: seq<User>)
    requires PositionalIds(users)
    ensures DistinctUserIds(users)
  {
    forall i, j | 0 <= i < j < |users| ensures users[i].id != users[j].id {
      if users[i].id == users[j].id {
        PrefixedNatInjective("user-", i, j);
      }
    }
  }

  /** The accounts the system starts with. */
  function SeedUsers(): seq<User>
  {
    [ User(UserId(0), "admin", "password", Admin),
      User(UserId(1), "inspector1", "password", Inspector),
      User(UserId(2), "supervisor1", "password", Supervisor),
      User(UserId(3), "inspector2", "password", Inspector) ]
  }

  lemma SeedUsersValid()
    ensures PositionalIds(SeedUsers()) && DistinctUsernames(SeedUsers())
    ensures SeedUsers()[0].id == "user-0" && SeedUsers()[3].id == "user-3"
  {
  }

  // ---------------------------------------------------------------------------
  // Queries
  // ---------------------------------------------------------------------------

  function Credentials(username: string, password: string): User -> bool
  {
    (u: User) => u.username == username && u.password == password
  }

  /** `users.find(u => u.username === username && u.password === password)`. */
  function AuthenticateUser(users: seq<User>, username: string, password: string): (r: Option<User>)
    ensures r.None? <==> forall i :: 0 <= i < |users| ==> !(users[i].username == username && users[i].password == password)
    ensures r.Some? ==>
      exists i :: 0 <= i < |users| && users[i] == r.value &&
        r.value.username == username && r.value.password == password &&
        forall j :: 0 <= j < i ==> !(users[j].username == username && users[j].password == password)
  {
    Seqs.Find(users, Credentials(username, password))
  }

  /** With distinct usernames, the user found is the one holding that username. */
  lemma AuthenticateFindsTheAccount(users: seq<User>, i: nat, password: string)
    requires DistinctUsernames(users) && i < |users| && users[i].password == password
    ensures AuthenticateUser(users, users[i].username, password) == Some(users[i])
  {
    var r := AuthenticateUser(users, users[i].username, password);
    var k :| 0 <= k < |users| && users[k] == r.value && r.value.username == users[i].username &&
             r.value.password == password;
  }

  function Public(u: User): PublicUser
  {
    PublicUser(u.id, u.username, u.role)
  }

  /** `users.map(({ password, ...user }) => user)`. */
  function GetUsers(users: seq<User>): (r: seq<PublicUser>)
    ensures |r| == |users|
    ensures forall i :: 0 <= i < |users| ==>
      r[i].id == users[i].id && r[i].username == users[i].username && r[i].role == users[i].role
  {
    seq(|users|, i requires 0 <= i < |users| => Public(users[i]))
  }

  /** The public view keeps the table's invariants: ids and usernames remain unique. */
  lemma GetUsersKeepsDistinct(users: seq<User>)
    requires PositionalIds(users) && DistinctUsernames(users)
    ensures forall i, j :: 0 <= i < j < |users| ==>
      GetUsers(users)[i].id != GetUsers(users)[j].id &&
      GetUsers(users)[i].username != GetUsers(users)[j].username
  {
    PositionalIdsAreDistinct(users);
  }

  function WithId(id: string): InspectionReport -> bool
  {
    (r: InspectionReport) => r.id == id
  }

  /** `inspections.find(insp => insp.id === inspectionId)`. */
  function GetInspectionById(inspections: seq<InspectionReport>, id: string): (r: Option<InspectionReport>)
    ensures r.None? <==> forall i :: 0 <= i < |inspections| ==> inspections[i].id != id
    ensures r.Some? ==> r.value.id == id
    ensures r.Some? ==>
      exists i :: 0 <= i < |inspections| && inspections[i] == r.value &&
        forall j :: 0 <= j < i ==> inspections[j].id != id
  {
    Seqs.Find(inspections, WithId(id))
  }

  // ---------------------------------------------------------------------------
  // Sorting by id, descending (`(a, b) => b.id.localeCompare(a.id)`)
  // ---------------------------------------------------------------------------

  predicate SortedByIdDesc(s: seq<InspectionReport>)
  {
    forall i, j :: 0 <= i < j < |s| ==> StrLe(s[j].id, s[i].id)
  }

  /** No report of `s` has an id above `id`. */
  predicate IdsAtMost(s: seq<InspectionReport>, id: string)
  {
    forall y :: y in s ==> StrLe(y.id, id)
  }

  /** A report whose id bounds a sorted list can go in front of it. */
  lemma PrependKeepsSorted(h: InspectionReport, t: seq<InspectionReport>)
    requires SortedByIdDesc(t) && IdsAtMost(t, h.id)
    ensures SortedByIdDesc([h] + t)
  {
    var r := [h] + t;
    forall i, j | 0 <= i < j < |r| ensures StrLe(r[j].id, r[i].id) {
      assert r[j] == t[j - 1];
      if i == 0 { assert t[j - 1] in t; } else { assert r[i] == t[i - 1]; }
    }
  }

  /** Every report of a sorted list is bounded by any id that bounds its head. */
  lemma HeadBoundsSorted(s: seq<InspectionReport>, id: string)
    requires SortedByIdDesc(s) && s != [] && StrLe(s[0].id, id)
    ensures IdsAtMost(s, id)
  {
    forall y | y in s ensures StrLe(y.id, id) {
      var k :| 0 <= k < |s| && s[k] == y;
      if k > 0 { StrLeTransitive(s[k].id, s[0].id, id); }
    }
  }

  /** A rearrangement of the tail of a sorted list plus a smaller report stays below its head. */
  lemma InsertedStaysBelowHead(x: InspectionReport, s: seq<InspectionReport>, t: seq<InspectionReport>)
    requires SortedByIdDesc(s) && s != [] && StrLe(x.id, s[0].id)
    requires multiset(t) == multiset(s[1..]) + multiset{x}
    ensures IdsAtMost(t, s[0].id)
  {
    StrLeTotal(s[0].id, s[0].id);
    HeadBoundsSorted(s, s[0].id);
    forall y | y in t ensures StrLe(y.id, s[0].id) {
      assert y in multiset(t);
      if y != x {
        assert y in multiset(s[1..]);
        assert y in s[1..];
        assert y in s;
      }
    }
  }

  /**
   * Inserts `x` before the first report whose id does not exceed its own, so
   * that among equal ids the earlier input stays first (a stable sort).
   */
  function InsertByIdDesc(x: InspectionReport, s: seq<InspectionReport>): (r: seq<InspectionReport>)
    requires SortedByIdDesc(s)
    ensures SortedByIdDesc(r)
    ensures multiset(r) == multiset(s) + multiset{x}
  {
    if s == [] then [x]
    else if StrLe(s[0].id, x.id) then
      HeadBoundsSorted(s, x.id);
      PrependKeepsSorted(x, s);
      [x] + s
    else
      StrLeTotal(s[0].id, x.id);
      assert s == [s[0]] + s[1..];
      var t := InsertByIdDesc(x, s[1..]);
      InsertedStaysBelowHead(x, s, t);
      PrependKeepsSorted(s[0], t);
      [s[0]] + t
  }

  /** `.sort((a, b) => b.id.localeCompare(a.id))`: a permutation, sorted by id descending. */
  function SortByIdDesc(s: seq<InspectionReport>): (r: seq<InspectionReport>)
    ensures SortedByIdDesc(r)
    ensures multiset(r) == multiset(s)
    ensures |r| == |s|
  {
    if s == [] then []
    else
      assert s == [s[0]] + s[1..];
      InsertByIdDesc(s[0], SortByIdDesc(s[1..]))
  }

  function ScheduledBy(inspectorId: string): InspectionReport -> bool
  {
    (r: InspectionReport) => r.scheduledById == inspectorId
  }

  /** The inspections scheduled by `inspectorId`, each as often as in the table, newest id first. */
  function GetInspectionsForInspector(inspections: seq<InspectionReport>, inspectorId: string)
    : (r: seq<InspectionReport>)
    ensures SortedByIdDesc(r)
    ensures forall x :: x in r ==> x in inspections && x.scheduledById == inspectorId
    ensures forall x :: x in inspections && x.scheduledById == inspectorId ==>
      multiset(r)[x] == multiset(inspections)[x]
  {
    var mine := Seqs.Filter(inspections, ScheduledBy(inspectorId));
    var r := SortByIdDesc(mine);
    assert forall x :: x in r ==> x in mine by {
      forall x | x in r ensures x in mine { assert x in multiset(r); }
    }
    r
  }

  /** `[...inspections].sort(…)`: every inspection, newest id first. */
  function GetAllInspections(inspections: seq<InspectionReport>): (r: seq<InspectionReport>)
    ensures SortedByIdDesc(r)
    ensures multiset(r) == multiset(inspections)
  {
    SortByIdDesc(inspections)
  }

  // ---------------------------------------------------------------------------
  // The store
  // ---------------------------------------------------------------------------

  /** The two module-level tables. */
  class Store {
    var users: seq<User>
    var inspections: seq<InspectionReport>

    ghost predicate Valid()
      reads this
    {
      PositionalIds(users) && DistinctUsernames(users)
    }

    /**
     * The seed data. `generate` stands for `generateNewInspectionReport`,
     * whose definition is not part of this model.
     */
    constructor (generate: (string, string) -> InspectionReport)
      ensures Valid()
      ensures users == SeedUsers()
      ensures inspections == [generate("Sample Inspection for Turbine Blade", "user-1"),
                              generate("FAI for Landing Gear Strut", "user-3")]
    {
      users := SeedUsers();
      inspections := [generate("Sample Inspection for Turbine Blade", "user-1"),
                      generate("FAI for Landing Gear Strut", "user-3")];
      new;
      SeedUsersValid();
    }

    /**
     * Rejects a taken username and changes nothing; otherwise appends one user
     * with the next positional id and returns it. Usernames and ids stay unique.
     */
    method CreateUser(username: string, password: string, role: UserRole) returns (created: Option<User>)
      requires Valid()
      modifies this
      ensures Valid()
      ensures inspections == old(inspections)
      ensures (exists i :: 0 <= i < |old(users)| && old(users)[i].username == username) ==>
        created.None? && users == old(users)
      ensures (forall i :: 0 <= i < |old(users)| ==> old(users)[i].username != username) ==>
        created == Some(User(UserId(|old(users)|), username, password, role)) &&
        users == old(users) + [created.value]
    {
      var taken := exists i :: 0 <= i < |users| && users[i].username == username;
      if taken {
        return None;
      }
      var u := User(UserId(|users|), username, password, role);
      users := users + [u];
      created := Some(u);
    }

    /** Appends the freshly generated report and returns that same report. */
    method ScheduleInspection(title: string, inspectorId: string, generate: (string, string) -> InspectionReport)
      returns (report: InspectionReport)
      modifies this
      ensures report == generate(title, inspectorId)
      ensures inspections == old(inspections) + [report]
      ensures users == old(users)
    {
      report := generate(title, inspectorId);
      inspections := inspections + [report];
    }
  }
}
