/** Idempotent database seeding: three sample users are created, each only if
    no user with that e-mail address exists yet.

    The user table is a map from e-mail address (a unique column) to the row
    created for it. The bcrypt hash of the sample password is computed once,
    before the loop; it is an opaque string here.
 */
module Seed {
  import opened JsValues

  /** The data the seed passes to `create`. */
  datatype NewUser = NewUser(email: string, name: string, password: string, role: string)

  type Table = map<string, NewUser>

  /** The sample users, all carrying the one hash computed before the loop;
      the first is the admin, the other two are plain users. */
  function SampleUsers(hashedPassword: string): (us: seq<NewUser>)
    ensures |us| == 3
    ensures forall u :: u in us ==> u.password == hashedPassword
    ensures us[0].email == "admin@example.com" && us[0].role == "admin"
    ensures us[1].email == "user@example.com" && us[1].role == "user"
    ensures us[2].email == "jane@example.com" && us[2].role == "user"
  {
    [ NewUser("admin@example.com", "Admin User", hashedPassword, "admin"),
      NewUser("user@example.com", "John Doe", hashedPassword, "user"),
      NewUser("jane@example.com", "Jane Smith", hashedPassword, "user") ]
  }

  function Emails(users: seq<NewUser>): set<string> {
    set u | u in users :: u.email
  }

  ghost predicate DistinctEmails(users: seq<NewUser>) {
    forall i, j :: 0 <= i < j < |users| ==> users[i].email != users[j].email
  }

  /** One loop iteration: look the e-mail up and create the row only if
      nothing was found. */
  function InsertIfAbsent(t: Table, u: NewUser): (r: Table)
    ensures r.Keys == t.Keys + {u.email}
    ensures forall e :: e in t ==> r[e] == t[e]
    ensures u.email !in t ==> r[u.email] == u
  {
    if u.email in t then t else t[u.email := u]
  }

  /** The table after the loop has run over `users` in order: the keys are
      the old ones plus the listed e-mails, and no old row is overwritten. */
  function SeedAll(t: Table, users: seq<NewUser>): (r: Table)
    ensures r.Keys == t.Keys + Emails(users)
    ensures forall e :: e in t ==> r[e] == t[e]
  {
    if users == [] then t
    else
      var init := users[..|users| - 1];
      assert users == init + [users[|users| - 1]];
      assert Emails(users) == Emails(init) + {users[|users| - 1].email};
      InsertIfAbsent(SeedAll(t, init), users[|users| - 1])
  }

  /** The seeded table, key by key: existing rows are kept, every listed e-mail
      that was absent now holds the listed user, and nothing else is added. */
  lemma {:induction false} SeedAllContents(t: Table, users: seq<NewUser>)
    requires DistinctEmails(users)
    ensures SeedAll(t, users).Keys == t.Keys + Emails(users)
    ensures forall e :: e in t ==> SeedAll(t, users)[e] == t[e]
    ensures forall i :: 0 <= i < |users| && users[i].email !in t ==>
      SeedAll(t, users)[users[i].email] == users[i]
  {
    if users != [] {
      var init := users[..|users| - 1];
      var last := users[|users| - 1];
      assert DistinctEmails(init);
      SeedAllContents(t, init);
      forall i | 0 <= i < |users| && users[i].email !in t
        ensures SeedAll(t, users)[users[i].email] == users[i]
      {
        if i < |users| - 1 {
          assert users[i] == init[i] && users[i].email != last.email;
        }
      }
    }
  }

  /** Every listed e-mail is present afterwards. */
  lemma SeedAllPresent(t: Table, users: seq<NewUser>)
    ensures forall u :: u in users ==> u.email in SeedAll(t, users)
  {
  }

  /** A row already present is never overwritten. */
  lemma SeedAllNoOverwrite(t: Table, users: seq<NewUser>)
    ensures forall e :: e in t ==> e in SeedAll(t, users) && SeedAll(t, users)[e] == t[e]
  {
  }

  /** Rows under e-mails outside the list are neither added, removed nor
      changed. */
  lemma SeedAllOthersUnchanged(t: Table, users: seq<NewUser>, e: string)
    requires e !in Emails(users)
    ensures e in SeedAll(t, users) <==> e in t
    ensures e in t ==> SeedAll(t, users)[e] == t[e]
  {
  }

  /** A second run whose e-mails were all seeded by the first changes
      nothing, whatever rows the second run would have created. */
  lemma SeedAllAgain(t: Table, first: seq<NewUser>, second: seq<NewUser>)
    requires Emails(second) <= Emails(first)
    ensures SeedAll(SeedAll(t, first), second) == SeedAll(t, first)
  {
    var once := SeedAll(t, first);
    var twice := SeedAll(once, second);
    assert twice.Keys == once.Keys;
    forall e | e in twice ensures twice[e] == once[e] { }
  }

  /** Running the seed script twice leaves the same table as running it
      once, even though each run hashes the sample password afresh (bcrypt
      salts every hash, so the two hashes differ). */
  lemma SeedTwice(t: Table, hash1: string, hash2: string)
    ensures SeedAll(SeedAll(t, SampleUsers(hash1)), SampleUsers(hash2)) ==
      SeedAll(t, SampleUsers(hash1))
  {
    SampleUsersFacts(hash1);
    SampleUsersFacts(hash2);
    SeedAllAgain(t, SampleUsers(hash1), SampleUsers(hash2));
  }

  /** The number of rows created is the number of listed e-mails that were
      absent before the run. */
  lemma SeedAllSize(t: Table, users: seq<NewUser>)
    ensures |SeedAll(t, users)| == |t| + |Emails(users) - t.Keys|
  {
    var r := SeedAll(t, users);
    var added := Emails(users) - t.Keys;
    assert r.Keys == t.Keys + added;
    DisjointUnionSize(t.Keys, added);
    assert |r| == |r.Keys|;
  }

  lemma DisjointUnionSize(a: set<string>, b: set<string>)
    requires a !! b
    ensures |a + b| == |a| + |b|
  {
  }

  /** The three sample e-mails are distinct, and roles are fixed: admin for
      the first, user for the other two. */
  lemma SampleUsersFacts(hashedPassword: string)
    ensures DistinctEmails(SampleUsers(hashedPassword))
    ensures Emails(SampleUsers(hashedPassword)) ==
      {"admin@example.com", "user@example.com", "jane@example.com"}
    ensures forall u :: u in SampleUsers(hashedPassword) ==>
      u.password == hashedPassword && (u.role == "admin" <==> u.email == "admin@example.com")
  {
    var s := SampleUsers(hashedPassword);
    assert s[0].email != s[1].email && s[0].email != s[2].email && s[1].email != s[2].email;
  }

  /** The user table the seed writes to. */
  class UserTable {
    var rows: Table

    constructor (rows: Table)
      ensures this.rows == rows
    {
      this.rows := rows;
    }

    /** `findUnique({ where: { email } })`. */
    method FindUnique(email: string) returns (found: Option<NewUser>)
      ensures found.Some? <==> email in rows
      ensures found.Some? ==> found.value == rows[email]
    {
      found := if email in rows then Some(rows[email]) else None;
    }

    /** `create({ data })`: fails, changing nothing, on a duplicate e-mail. */
    method Create(data: NewUser) returns (ok: bool)
      modifies this
      ensures ok <==> data.email !in old(rows)
      ensures rows == if ok then old(rows)[data.email := data] else old(rows)
    {
      ok := data.email !in rows;
      if ok {
        rows := rows[data.email := data];
      }
    }
  }

  /** One more loop iteration is one more insert-if-absent. */
  lemma SeedAllStep(t: Table, users: seq<NewUser>, i: nat)
    requires i < |users|
    ensures SeedAll(t, users[..i + 1]) == InsertIfAbsent(SeedAll(t, users[..i]), users[i])
  {
    assert users[..i + 1][..i] == users[..i];
  }

  /** Every row the seed script adds is a sample user stored under its own
      e-mail, with the shared hash and the fixed role. */
  lemma SeedNewRows(t: Table, hashedPassword: string)
    ensures forall e :: e in SeedAll(t, SampleUsers(hashedPassword)) && e !in t ==>
      var r := SeedAll(t, SampleUsers(hashedPassword))[e];
      && r.password == hashedPassword && r.email == e
      && r.role == (if e == "admin@example.com" then "admin" else "user")
  {
    var sampleUsers := SampleUsers(hashedPassword);
    SampleUsersFacts(hashedPassword);
    SeedAllContents(t, sampleUsers);
    forall e | e in SeedAll(t, sampleUsers) && e !in t
      ensures var r := SeedAll(t, sampleUsers)[e];
        && r.password == hashedPassword && r.email == e
        && r.role == (if e == "admin@example.com" then "admin" else "user")
    {
      var k :| 0 <= k < |sampleUsers| && sampleUsers[k].email == e;
    }
  }

  /** The seed script's `main`: one find-then-create per sample user. */
  method SeedMain(table: UserTable, hashedPassword: string)
    modifies table
    ensures table.rows == SeedAll(old(table.rows), SampleUsers(hashedPassword))
    ensures forall u :: u in SampleUsers(hashedPassword) ==> u.email in table.rows
    ensures forall e :: e in old(table.rows) ==> e in table.rows && table.rows[e] == old(table.rows)[e]
    ensures forall e :: e in table.rows && e !in old(table.rows) ==>
      && table.rows[e].password == hashedPassword && table.rows[e].email == e
      && table.rows[e].role == (if e == "admin@example.com" then "admin" else "user")
  {
    var sampleUsers := SampleUsers(hashedPassword);
    var i := 0;
    while i < |sampleUsers|
      invariant 0 <= i <= |sampleUsers|
      invariant table.rows == SeedAll(old(table.rows), sampleUsers[..i])
    {
      var userData := sampleUsers[i];
      var existingUser := table.FindUnique(userData.email);
      if existingUser.None? {
        var ok := table.Create(userData);
      }
      SeedAllStep(old(table.rows), sampleUsers, i);
      i := i + 1;
    }
    assert sampleUsers[..i] == sampleUsers;
    SampleUsersFacts(hashedPassword);
    SeedAllPresent(old(table.rows), sampleUsers);
    SeedNewRows(old(table.rows), hashedPassword);
  }
}
