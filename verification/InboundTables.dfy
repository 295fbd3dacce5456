/**
 How a new user list turns the user tables of the inbounds: what is deleted, what
 is added, and when a table that agreed with the old users agrees with the new
 ones (cmd/star1ight-agent/user_manager.go).
 */
module InboundTables {
  import opened Text

  datatype User = User(id: int, uuid: string, password: string, name: string, speedLimit: int)

  type Users = map<nat, User>

  // The tables of the inbounds by their protocol; other inbounds have no users.
  datatype Kind = Vless | Hysteria2 | Shadowsocks | Other

  datatype Row =
    | VlessRow(uuid: string)
    | Hysteria2Row(name: string, password: string, id: int)
    | ShadowsocksRow(name: string, password: string)

  // The key a row is stored and deleted under.
  function Key(r: Row): string {
    match r
    case VlessRow(uuid) => uuid
    case Hysteria2Row(_, password, _) => password
    case ShadowsocksRow(name, _) => name
  }

  function Sprint(n: int): string { if n >= 0 then Decimal(n) else "-" + Decimal(-n) }

  // The row a user has in a table of some kind.
  function RowFor(kind: Kind, u: User): Option<Row> {
    match kind
    case Vless => if u.uuid == "" then None else Some(VlessRow(u.uuid))
    case Hysteria2 =>
      if u.password == "" then None
      else Some(Hysteria2Row(if u.name == "" then u.password else u.name, u.password, u.id))
    case Shadowsocks => if u.password == "" then None else Some(ShadowsocksRow(Sprint(u.id), u.password))
    case Other => None
  }

  predicate HasKey(kind: Kind, u: User, key: string) {
    RowFor(kind, u).Some? && Key(RowFor(kind, u).value) == key
  }

  predicate SecretsChanged(a: User, b: User) { a.uuid != b.uuid || a.password != b.password || a.name != b.name }

  // Users are stored under their own positive ids.
  predicate ById(users: Users) { forall id :: id in users ==> id > 0 && users[id].id == id }

  // The last user of a list under each positive id.
  function Next(list: seq<User>): (r: Users)
    ensures ById(r)
  {
    if list == [] then map[]
    else
      var u := list[|list| - 1];
      var r := Next(list[..|list| - 1]);
      if u.id <= 0 then r else r[u.id := u]
  }

  predicate LastWithId(list: seq<User>, id: nat, i: int) {
    0 <= i < |list| && list[i].id == id && forall j :: i < j < |list| ==> list[j].id != id
  }

  // The users after a list: the last one listed under each positive id.
  lemma {:induction false} NextAt(list: seq<User>, id: nat)
    ensures id in Next(list) <==> id > 0 && exists i :: LastWithId(list, id, i)
    ensures id in Next(list) ==> exists i :: LastWithId(list, id, i) && Next(list)[id] == list[i]
  {
    if list != [] {
      var n := |list| - 1;
      NextAt(list[..n], id);
      if list[n].id == id {
        assert LastWithId(list, id, n);
      } else {
        assert forall i :: LastWithId(list, id, i) ==> LastWithId(list[..n], id, i);
        if i :| LastWithId(list[..n], id, i) {
          assert LastWithId(list, id, i);
        }
        if id in Next(list[..n]) {
          var i :| LastWithId(list[..n], id, i) && Next(list[..n])[id] == list[..n][i];
          assert LastWithId(list, id, i);
        }
      }
    }
  }

  // ------------------------------------------------------------------- secrets

  predicate Owns(u: User, secret: string) {
    secret != "" && (secret == u.uuid || secret == u.password || secret == u.name)
  }

  function WithSecret(m: map<string, nat>, secret: string, id: nat): map<string, nat> {
    if secret == "" then m else m[secret := id]
  }

  function WithSecrets(m: map<string, nat>, u: User): map<string, nat>
    requires u.id > 0
  {
    WithSecret(WithSecret(WithSecret(m, u.uuid, u.id), u.password, u.id), u.name, u.id)
  }

  // The id that each secret of a list is resolved to.
  function Secrets(list: seq<User>): map<string, nat> {
    if list == [] then map[]
    else
      var u := list[|list| - 1];
      var m := Secrets(list[..|list| - 1]);
      if u.id <= 0 then m else WithSecrets(m, u)
  }

  predicate OwnerAt(list: seq<User>, secret: string, i: int) {
    0 <= i < |list| && list[i].id > 0 && Owns(list[i], secret)
  }

  predicate LastOwner(list: seq<User>, secret: string, i: int) {
    OwnerAt(list, secret, i) && forall j :: i < j < |list| ==> !OwnerAt(list, secret, j)
  }

  // A secret is known exactly when a user owns it, and the last owner has it.
  lemma {:induction false} SecretsAt(list: seq<User>, secret: string)
    ensures secret in Secrets(list) <==> exists i :: OwnerAt(list, secret, i)
    ensures secret in Secrets(list) ==> exists i :: LastOwner(list, secret, i) && Secrets(list)[secret] == list[i].id
  {
    if list != [] {
      var n := |list| - 1;
      SecretsAt(list[..n], secret);
      if OwnerAt(list, secret, n) {
        assert LastOwner(list, secret, n);
      } else {
        assert forall i :: OwnerAt(list, secret, i) <==> OwnerAt(list[..n], secret, i);
        if i :| LastOwner(list[..n], secret, i) && Secrets(list[..n])[secret] == list[..n][i].id {
          assert LastOwner(list, secret, i);
        }
      }
    }
  }

  // Every user is found under each of its secrets exactly when no secret belongs to
  // two ids.
  lemma SecretsResolveIff(list: seq<User>)
    ensures (forall i, s :: OwnerAt(list, s, i) ==> s in Secrets(list) && Secrets(list)[s] == list[i].id)
            <==> (forall i, j, s :: OwnerAt(list, s, i) && OwnerAt(list, s, j) ==> list[i].id == list[j].id)
  {
    forall i, s | OwnerAt(list, s, i)
      ensures s in Secrets(list) && exists j :: OwnerAt(list, s, j) && Secrets(list)[s] == list[j].id
    {
      SecretsAt(list, s);
    }
  }

  // ------------------------------------------------------------------ the diff

  predicate Leaves(prev: Users, next: Users, id: nat) {
    id in prev && (id !in next || SecretsChanged(prev[id], next[id]))
  }

  ghost predicate Deleted(kind: Kind, prev: Users, next: Users, key: string) {
    exists id :: Leaves(prev, next, id) && HasKey(kind, prev[id], key)
  }

  predicate Enters(prev: Users, next: Users, id: nat) {
    id in next && !(id in prev && prev[id] == next[id])
  }

  predicate AddedAs(kind: Kind, prev: Users, next: Users, id: nat, key: string) {
    Enters(prev, next, id) && HasKey(kind, next[id], key)
  }

  ghost predicate Added(kind: Kind, prev: Users, next: Users, key: string) {
    exists id :: AddedAs(kind, prev, next, id, key)
  }

  // Additions are made in the order of the ids, so the greatest one stays.
  ghost predicate Wins(kind: Kind, prev: Users, next: Users, id: nat, key: string) {
    AddedAs(kind, prev, next, id, key) && forall j: nat :: AddedAs(kind, prev, next, j, key) ==> j <= id
  }

  type Table = map<string, Row>

  predicate SameAt(t: Table, t': Table, key: string) {
    (key in t <==> key in t') && (key in t ==> t[key] == t'[key])
  }

  ghost predicate PatchedAt(kind: Kind, prev: Users, next: Users, t: Table, t': Table, key: string) {
    if Added(kind, prev, next, key) then
      key in t' && exists id :: Wins(kind, prev, next, id, key) && RowFor(kind, next[id]) == Some(t'[key])
    else if Deleted(kind, prev, next, key) then key !in t'
    else SameAt(t, t', key)
  }

  // `t'` is `t` after the deletions and then the additions.
  ghost predicate Patched(kind: Kind, prev: Users, next: Users, t: Table, t': Table) {
    forall key :: PatchedAt(kind, prev, next, t, t', key)
  }

  // ----------------------------------------------------------------- agreement

  // The table holds the row of every user, and nothing else.
  ghost predicate Agrees(kind: Kind, users: Users, t: Table) {
    && (forall id :: id in users && RowFor(kind, users[id]).Some? ==> Holds(t, RowFor(kind, users[id]).value))
    && (forall key :: key in t ==> Owned(kind, users, key))
  }

  predicate Holds(t: Table, r: Row) { Key(r) in t && t[Key(r)] == r }

  ghost predicate Owned(kind: Kind, users: Users, key: string) {
    exists id :: id in users && HasKey(kind, users[id], key)
  }

  // No user that stays as it is loses its row to the deletion of another user's
  // row under the same key.
  ghost predicate Spared(kind: Kind, prev: Users, next: Users) {
    forall id, key ::
      id in prev && id in next && prev[id] == next[id] && HasKey(kind, next[id], key)
      && Deleted(kind, prev, next, key) ==>
      Added(kind, prev, next, key)
  }

  // Users with the same key have the same row.
  ghost predicate Coherent(kind: Kind, users: Users) {
    forall i, j, key :: i in users && j in users && HasKey(kind, users[i], key) && HasKey(kind, users[j], key) ==>
      RowFor(kind, users[i]) == RowFor(kind, users[j])
  }

  // A table that agreed with the old users agrees with the new ones, after their
  // difference was applied, exactly when every unchanged user is spared and no two
  // new users claim the same key.
  lemma AgreementIff(kind: Kind, prev: Users, next: Users, t: Table, t': Table)
    requires ById(prev) && ById(next)
    requires Agrees(kind, prev, t) && Patched(kind, prev, next, t, t')
    ensures Agrees(kind, next, t') <==> Spared(kind, prev, next) && Coherent(kind, next)
  {
    if Agrees(kind, next, t') {
      AgreesIsCoherent(kind, next, t');
      forall id, key |
        id in prev && id in next && prev[id] == next[id] && HasKey(kind, next[id], key)
        && Deleted(kind, prev, next, key)
        ensures Added(kind, prev, next, key)
      {
        assert PatchedAt(kind, prev, next, t, t', key);
        assert Holds(t', RowFor(kind, next[id]).value);
      }
    }
    if Spared(kind, prev, next) && Coherent(kind, next) {
      forall id | id in next && RowFor(kind, next[id]).Some?
        ensures Holds(t', RowFor(kind, next[id]).value)
      {
        RowIsHeld(kind, prev, next, t, t', id);
      }
      forall key | key in t'
        ensures Owned(kind, next, key)
      {
        KeyIsOwned(kind, prev, next, t, t', key);
      }
    }
  }

  lemma AgreesIsCoherent(kind: Kind, users: Users, t: Table)
    requires Agrees(kind, users, t)
    ensures Coherent(kind, users)
  {
    forall i, j, key | i in users && j in users && HasKey(kind, users[i], key) && HasKey(kind, users[j], key)
      ensures RowFor(kind, users[i]) == RowFor(kind, users[j])
    {
      assert Holds(t, RowFor(kind, users[i]).value) && Holds(t, RowFor(kind, users[j]).value);
    }
  }

  lemma RowIsHeld(kind: Kind, prev: Users, next: Users, t: Table, t': Table, id: nat)
    requires Agrees(kind, prev, t) && Patched(kind, prev, next, t, t')
    requires Spared(kind, prev, next) && Coherent(kind, next)
    requires id in next && RowFor(kind, next[id]).Some?
    ensures Holds(t', RowFor(kind, next[id]).value)
  {
    var key := Key(RowFor(kind, next[id]).value);
    assert HasKey(kind, next[id], key);
    assert PatchedAt(kind, prev, next, t, t', key);
    if Added(kind, prev, next, key) {
      var w :| Wins(kind, prev, next, w, key) && RowFor(kind, next[w]) == Some(t'[key]);
      assert HasKey(kind, next[w], key);
    } else {
      assert !AddedAs(kind, prev, next, id, key);
      assert Holds(t, RowFor(kind, prev[id]).value);
    }
  }

  lemma KeyIsOwned(kind: Kind, prev: Users, next: Users, t: Table, t': Table, key: string)
    requires ById(prev) && ById(next)
    requires Agrees(kind, prev, t) && Patched(kind, prev, next, t, t') && key in t'
    ensures Owned(kind, next, key)
  {
    assert PatchedAt(kind, prev, next, t, t', key);
    if Added(kind, prev, next, key) {
      var id :| AddedAs(kind, prev, next, id, key);
      assert id in next && HasKey(kind, next[id], key);
    } else {
      assert Owned(kind, prev, key);
      var id :| id in prev && HasKey(kind, prev[id], key);
      assert !Leaves(prev, next, id);
      assert id in next && HasKey(kind, next[id], key);
    }
  }

  // Shadowsocks tables are keyed by id and always agree.
  lemma ShadowsocksAgrees(prev: Users, next: Users, t: Table, t': Table)
    requires ById(prev) && ById(next)
    requires Agrees(Shadowsocks, prev, t) && Patched(Shadowsocks, prev, next, t, t')
    ensures Agrees(Shadowsocks, next, t')
  {
    forall i, j, key | i in next && j in next && HasKey(Shadowsocks, next[i], key) && HasKey(Shadowsocks, next[j], key)
      ensures RowFor(Shadowsocks, next[i]) == RowFor(Shadowsocks, next[j])
    {
      DecimalInjective(i, j);
    }
    forall id, key | id in prev && id in next && prev[id] == next[id] && HasKey(Shadowsocks, next[id], key)
      ensures !Deleted(Shadowsocks, prev, next, key)
    {
      if j :| Leaves(prev, next, j) && HasKey(Shadowsocks, prev[j], key) {
        DecimalInjective(id, j);
      }
    }
    AgreementIff(Shadowsocks, prev, next, t, t');
  }

  predicate DistinctPasswords(users: Users) {
    forall i, j :: i in users && j in users && users[i].password == users[j].password != "" ==> i == j
  }

  predicate DistinctUuids(users: Users) {
    forall i, j :: i in users && j in users && users[i].uuid == users[j].uuid != "" ==> i == j
  }

  // Hysteria2 tables agree exactly when the new passwords are distinct: passwords
  // may be swapped, emptied or taken over freely.
  lemma Hysteria2AgreesIff(prev: Users, next: Users, t: Table, t': Table)
    requires ById(prev) && ById(next)
    requires Agrees(Hysteria2, prev, t) && Patched(Hysteria2, prev, next, t, t')
    ensures Agrees(Hysteria2, next, t') <==> DistinctPasswords(next)
  {
    AgreesIsCoherent(Hysteria2, prev, t);
    CoherentIsDistinct(prev);
    CoherentIsDistinct(next);
    forall id, key | id in prev && id in next && prev[id] == next[id] && HasKey(Hysteria2, next[id], key)
      ensures !Deleted(Hysteria2, prev, next, key)
    {
      if j :| Leaves(prev, next, j) && HasKey(Hysteria2, prev[j], key) {
        assert false;
      }
    }
    AgreementIff(Hysteria2, prev, next, t, t');
  }

  lemma CoherentIsDistinct(users: Users)
    requires ById(users)
    ensures Coherent(Hysteria2, users) <==> DistinctPasswords(users)
  {
    if Coherent(Hysteria2, users) {
      forall i, j | i in users && j in users && users[i].password == users[j].password != ""
        ensures i == j
      {
        assert HasKey(Hysteria2, users[i], users[i].password) && HasKey(Hysteria2, users[j], users[i].password);
      }
    }
  }

  // VLESS tables agree exactly when no unchanged user shares its UUID with a
  // deleted one that nobody brings back.
  lemma VlessAgreesIff(prev: Users, next: Users, t: Table, t': Table)
    requires ById(prev) && ById(next)
    requires Agrees(Vless, prev, t) && Patched(Vless, prev, next, t, t')
    ensures Agrees(Vless, next, t') <==> Spared(Vless, prev, next)
    ensures DistinctUuids(prev) ==> Agrees(Vless, next, t')
  {
    AgreementIff(Vless, prev, next, t, t');
    if DistinctUuids(prev) {
      forall id, key | id in prev && id in next && prev[id] == next[id] && HasKey(Vless, next[id], key)
        ensures !Deleted(Vless, prev, next, key)
      {
        if j :| Leaves(prev, next, j) && HasKey(Vless, prev[j], key) {
          assert false;
        }
      }
    }
  }

  // Two users of the old list share a UUID, and one of them leaves the new list or has
  // another UUID, password or name there.
  predicate SharedWithLeaver(prev: Users, next: Users, i: nat, j: nat) {
    && i in prev && j in prev && prev[i].uuid == prev[j].uuid != ""
    && (j !in next || next[j].uuid != prev[j].uuid || next[j].password != prev[j].password
        || next[j].name != prev[j].name)
  }

  // A user that is new, or is listed with any difference, has the UUID.
  predicate BroughtBack(prev: Users, next: Users, k: nat, uuid: string) {
    k in next && next[k].uuid == uuid && (k !in prev || prev[k] != next[k])
  }

  // In terms of the lists: a user that stays as it is keeps its row exactly when every
  // such sharing is made good by a user that brings the UUID back.
  lemma SparedVlessIff(prev: Users, next: Users)
    ensures Spared(Vless, prev, next)
            <==>
            forall i, j :: i in prev && i in next && prev[i] == next[i] && SharedWithLeaver(prev, next, i, j) ==>
              exists k :: BroughtBack(prev, next, k, prev[i].uuid)
  {
    if Spared(Vless, prev, next) {
      forall i, j | i in prev && i in next && prev[i] == next[i] && SharedWithLeaver(prev, next, i, j)
        ensures exists k :: BroughtBack(prev, next, k, prev[i].uuid)
      {
        assert Leaves(prev, next, j) && HasKey(Vless, prev[j], prev[i].uuid);
        assert HasKey(Vless, next[i], prev[i].uuid) && Deleted(Vless, prev, next, prev[i].uuid);
        assert Added(Vless, prev, next, prev[i].uuid);
        var k :| AddedAs(Vless, prev, next, k, prev[i].uuid);
        assert BroughtBack(prev, next, k, prev[i].uuid);
      }
    }
    if forall i, j :: i in prev && i in next && prev[i] == next[i] && SharedWithLeaver(prev, next, i, j) ==>
         exists k :: BroughtBack(prev, next, k, prev[i].uuid) {
      forall id, key |
        id in prev && id in next && prev[id] == next[id] && HasKey(Vless, next[id], key)
        && Deleted(Vless, prev, next, key)
        ensures Added(Vless, prev, next, key)
      {
        var j :| Leaves(prev, next, j) && HasKey(Vless, prev[j], key);
        assert SharedWithLeaver(prev, next, id, j);
        var k :| BroughtBack(prev, next, k, key);
        assert AddedAs(Vless, prev, next, k, key);
      }
    }
  }

  // With distinct UUIDs among the old users and distinct passwords among the new
  // ones every table keeps agreeing, through swapped or emptied secrets, taken over
  // ones and changes of speed alone.
  lemma AgreementIsKept(kind: Kind, prev: Users, next: Users, t: Table, t': Table)
    requires ById(prev) && ById(next) && DistinctUuids(prev) && DistinctPasswords(next)
    requires Agrees(kind, prev, t) && Patched(kind, prev, next, t, t')
    ensures Agrees(kind, next, t')
  {
    match kind
    case Vless => VlessAgreesIff(prev, next, t, t');
    case Hysteria2 => Hysteria2AgreesIff(prev, next, t, t');
    case Shadowsocks => ShadowsocksAgrees(prev, next, t, t');
    case Other => AgreementIff(Other, prev, next, t, t');
  }

  // ---------------------------------------------------- what the tables contain

  // Every non-empty UUID of a user, and nothing else.
  ghost predicate VlessTable(users: Users, t: Table) {
    && (forall key :: key in t <==> exists id :: id in users && users[id].uuid == key && key != "")
    && (forall key :: key in t ==> t[key] == VlessRow(key))
  }

  // Under every non-empty password a user that has it, by its name or, without one, by
  // the password, with its id.
  ghost predicate Hysteria2Table(users: Users, t: Table) {
    && (forall key :: key in t <==> exists id :: id in users && users[id].password == key && key != "")
    && (forall id :: id in users && users[id].password != "" ==>
          var u := users[id];
          u.password in t && t[u.password] == Hysteria2Row(if u.name != "" then u.name else u.password, u.password, id))
  }

  // Under the printed id of every user with a password, that password.
  ghost predicate ShadowsocksTable(users: Users, t: Table) {
    && (forall key :: key in t <==> exists id :: id in users && users[id].password != "" && key == Decimal(id))
    && (forall id :: id in users && users[id].password != "" ==>
          Decimal(id) in t && t[Decimal(id)] == ShadowsocksRow(Decimal(id), users[id].password))
  }

  ghost predicate TableOf(kind: Kind, users: Users, t: Table) {
    match kind
    case Vless => VlessTable(users, t)
    case Hysteria2 => Hysteria2Table(users, t)
    case Shadowsocks => ShadowsocksTable(users, t)
    case Other => t == map[]
  }

  lemma OwnedVless(users: Users, key: string)
    ensures Owned(Vless, users, key) <==> exists id :: id in users && users[id].uuid == key && key != ""
  {
    if id :| id in users && users[id].uuid == key && key != "" {
      assert HasKey(Vless, users[id], key);
    }
  }

  lemma OwnedHysteria2(users: Users, key: string)
    ensures Owned(Hysteria2, users, key) <==> exists id :: id in users && users[id].password == key && key != ""
  {
    if id :| id in users && users[id].password == key && key != "" {
      assert HasKey(Hysteria2, users[id], key);
    }
  }

  lemma OwnedShadowsocks(users: Users, key: string)
    requires ById(users)
    ensures Owned(Shadowsocks, users, key)
            <==> exists id :: id in users && users[id].password != "" && key == Decimal(id)
  {
    if id :| id in users && users[id].password != "" && key == Decimal(id) {
      assert HasKey(Shadowsocks, users[id], key);
    }
    if Owned(Shadowsocks, users, key) {
      var id :| id in users && HasKey(Shadowsocks, users[id], key);
      assert key == Decimal(id);
    }
  }

  // A table that agrees with the users has a row exactly for every owned key.
  lemma AgreesKeys(kind: Kind, users: Users, t: Table, key: string)
    requires Agrees(kind, users, t)
    ensures key in t <==> Owned(kind, users, key)
  {
    if id :| id in users && HasKey(kind, users[id], key) {
      assert Holds(t, RowFor(kind, users[id]).value);
    }
  }

  // What agreement means for each kind of table, row by row.
  lemma AgreesIsTable(kind: Kind, users: Users, t: Table)
    requires ById(users) && Agrees(kind, users, t)
    ensures TableOf(kind, users, t)
  {
    forall key
      ensures key in t <==> Owned(kind, users, key)
    {
      AgreesKeys(kind, users, t, key);
    }
    match kind
    case Vless => AgreesIsVless(users, t);
    case Hysteria2 => AgreesIsHysteria2(users, t);
    case Shadowsocks => AgreesIsShadowsocks(users, t);
    case Other =>
      assert forall key :: key !in t;
      assert t.Keys == {};
  }

  lemma AgreesIsVless(users: Users, t: Table)
    requires Agrees(Vless, users, t) && forall key :: key in t <==> Owned(Vless, users, key)
    ensures VlessTable(users, t)
  {
    forall key
      ensures key in t <==> exists id :: id in users && users[id].uuid == key && key != ""
    {
      OwnedVless(users, key);
    }
    forall key | key in t
      ensures t[key] == VlessRow(key)
    {
      var id :| id in users && users[id].uuid == key && key != "";
      assert Holds(t, RowFor(Vless, users[id]).value);
    }
  }

  lemma AgreesIsHysteria2(users: Users, t: Table)
    requires ById(users) && Agrees(Hysteria2, users, t) && forall key :: key in t <==> Owned(Hysteria2, users, key)
    ensures Hysteria2Table(users, t)
  {
    forall key
      ensures key in t <==> exists id :: id in users && users[id].password == key && key != ""
    {
      OwnedHysteria2(users, key);
    }
    forall id | id in users && users[id].password != ""
      ensures Holds(t, RowFor(Hysteria2, users[id]).value)
    {}
  }

  lemma AgreesIsShadowsocks(users: Users, t: Table)
    requires ById(users) && Agrees(Shadowsocks, users, t)
    requires forall key :: key in t <==> Owned(Shadowsocks, users, key)
    ensures ShadowsocksTable(users, t)
  {
    forall key
      ensures key in t <==> exists id :: id in users && users[id].password != "" && key == Decimal(id)
    {
      OwnedShadowsocks(users, key);
    }
    forall id | id in users && users[id].password != ""
      ensures Holds(t, RowFor(Shadowsocks, users[id]).value)
    {}
  }

  // Two users with one password: only the one with the greater id has its row.
  lemma SharedPasswordIsLost(t': Table)
    requires var a, b := User(1, "", "p", "", 0), User(2, "", "p", "", 0);
             Patched(Hysteria2, map[], map[1 := a, 2 := b], map[], t')
    ensures var a, b := User(1, "", "p", "", 0), User(2, "", "p", "", 0);
            "p" in t' && t'["p"] == Hysteria2Row("p", "p", 2) && !Agrees(Hysteria2, map[1 := a, 2 := b], t')
  {
    var a, b := User(1, "", "p", "", 0), User(2, "", "p", "", 0);
    var after := map[1 := a, 2 := b];
    assert AddedAs(Hysteria2, map[], after, 2, "p");
    assert PatchedAt(Hysteria2, map[], after, map[], t', "p");
    assert RowFor(Hysteria2, after[1]) == Some(Hysteria2Row("p", "p", 1));
  }

  // Two users with one UUID: removing the first takes the second off the table.
  lemma SharedUuidIsLost(t': Table)
    requires var a, b := User(1, "u", "", "", 0), User(2, "u", "", "", 0);
             Patched(Vless, map[1 := a, 2 := b], map[2 := b], map["u" := VlessRow("u")], t')
    ensures var a, b := User(1, "u", "", "", 0), User(2, "u", "", "", 0);
            Agrees(Vless, map[1 := a, 2 := b], map["u" := VlessRow("u")]) && !Agrees(Vless, map[2 := b], t')
  {
    var a, b := User(1, "u", "", "", 0), User(2, "u", "", "", 0);
    var before, after := map[1 := a, 2 := b], map[2 := b];
    assert Leaves(before, after, 1) && HasKey(Vless, before[1], "u");
    assert HasKey(Vless, before[2], "u") && Owned(Vless, before, "u");
    assert !Added(Vless, before, after, "u");
    assert PatchedAt(Vless, before, after, map["u" := VlessRow("u")], t', "u");
    assert RowFor(Vless, after[2]) == Some(VlessRow("u"));
  }

  // ------------------------------------------------- tables that did not agree

  // The table has a key exactly when some user owns it, with the row of an owner.
  ghost predicate RightAt(kind: Kind, users: Users, t: Table, key: string) {
    if key in t then exists id :: id in users && RowFor(kind, users[id]) == Some(t[key]) && Key(t[key]) == key
    else !Owned(kind, users, key)
  }

  // What a table needs to have, whatever it went through before, to agree once the
  // difference of two lists was applied: the untouched keys must be right already.
  ghost predicate ReadyFor(kind: Kind, prev: Users, next: Users, t: Table) {
    forall key :: !Added(kind, prev, next, key) ==>
      if Deleted(kind, prev, next, key) then !Owned(kind, next, key) else RightAt(kind, next, t, key)
  }

  // A table agrees after a success exactly when it was ready for the list and no two
  // users of the list claim the same key.
  lemma AgreementFromAnyTable(kind: Kind, prev: Users, next: Users, t: Table, t': Table)
    requires Patched(kind, prev, next, t, t')
    ensures Agrees(kind, next, t') <==> ReadyFor(kind, prev, next, t) && Coherent(kind, next)
  {
    if Agrees(kind, next, t') {
      AgreesIsCoherent(kind, next, t');
      forall key | !Added(kind, prev, next, key)
        ensures if Deleted(kind, prev, next, key) then !Owned(kind, next, key) else RightAt(kind, next, t, key)
      {
        AgreesIsRight(kind, next, t', key);
        assert PatchedAt(kind, prev, next, t, t', key);
        RightIsReady(kind, prev, next, t, t', key);
      }
    }
    if ReadyFor(kind, prev, next, t) && Coherent(kind, next) {
      forall key
        ensures RightAt(kind, next, t', key)
      {
        assert PatchedAt(kind, prev, next, t, t', key);
        ReadyIsRight(kind, prev, next, t, t', key);
      }
      RightEverywhere(kind, next, t');
    }
  }

  lemma AgreesIsRight(kind: Kind, users: Users, t: Table, key: string)
    requires Agrees(kind, users, t)
    ensures RightAt(kind, users, t, key)
  {
    if key in t {
      var id :| id in users && HasKey(kind, users[id], key);
      assert Holds(t, RowFor(kind, users[id]).value);
    }
  }

  lemma RightIsReady(kind: Kind, prev: Users, next: Users, t: Table, t': Table, key: string)
    requires PatchedAt(kind, prev, next, t, t', key) && RightAt(kind, next, t', key)
    requires !Added(kind, prev, next, key)
    ensures if Deleted(kind, prev, next, key) then !Owned(kind, next, key) else RightAt(kind, next, t, key)
  {}

  lemma ReadyIsRight(kind: Kind, prev: Users, next: Users, t: Table, t': Table, key: string)
    requires ReadyFor(kind, prev, next, t) && PatchedAt(kind, prev, next, t, t', key)
    ensures RightAt(kind, next, t', key)
  {
    if Added(kind, prev, next, key) {
      var w :| Wins(kind, prev, next, w, key) && RowFor(kind, next[w]) == Some(t'[key]);
      assert HasKey(kind, next[w], key);
    }
  }

  lemma RightEverywhere(kind: Kind, users: Users, t: Table)
    requires Coherent(kind, users) && forall key :: RightAt(kind, users, t, key)
    ensures Agrees(kind, users, t)
  {
    forall id | id in users && RowFor(kind, users[id]).Some?
      ensures Holds(t, RowFor(kind, users[id]).value)
    {
      var key := Key(RowFor(kind, users[id]).value);
      assert HasKey(kind, users[id], key) && Owned(kind, users, key);
      assert RightAt(kind, users, t, key);
      var j :| j in users && RowFor(kind, users[j]) == Some(t[key]) && Key(t[key]) == key;
      assert HasKey(kind, users[j], key);
    }
    forall key | key in t
      ensures Owned(kind, users, key)
    {
      assert RightAt(kind, users, t, key);
      var j :| j in users && RowFor(kind, users[j]) == Some(t[key]) && Key(t[key]) == key;
      assert HasKey(kind, users[j], key);
    }
  }

  // A table agreed, then any number of lists failed in any way, then a list succeeds:
  // it agrees again exactly when nothing is left of the failed lists besides what the
  // new list touches, every unchanged user is spared and no two users claim one key.
  lemma AgreementAfterFailures(kind: Kind, prev: Users, next: Users, t: Table, left: Table, t': Table)
    requires ById(prev) && ById(next)
    requires Agrees(kind, prev, t) && Patched(kind, prev, next, left, t')
    ensures Agrees(kind, next, t')
            <==> Touched(kind, prev, next, t, left) && Spared(kind, prev, next) && Coherent(kind, next)
  {
    if Touched(kind, prev, next, t, left) {
      RetryConverges(kind, prev, next, t, left, t');
      AgreementIff(kind, prev, next, t, t');
    }
    if Agrees(kind, next, t') {
      forall key | !Added(kind, prev, next, key) && !Deleted(kind, prev, next, key)
        ensures SameAt(t, left, key)
      {
        assert PatchedAt(kind, prev, next, left, t', key);
        UntouchedRow(kind, prev, next, t, t', key);
      }
    }
  }

  // Where the difference of two lists does nothing, tables that agree with them agree
  // with each other.
  lemma UntouchedRow(kind: Kind, prev: Users, next: Users, t: Table, t': Table, key: string)
    requires ById(prev) && ById(next) && Agrees(kind, prev, t) && Agrees(kind, next, t')
    requires !Added(kind, prev, next, key) && !Deleted(kind, prev, next, key)
    ensures SameAt(t, t', key)
  {
    if id :| id in next && HasKey(kind, next[id], key) {
      assert !AddedAs(kind, prev, next, id, key);
      assert Holds(t, RowFor(kind, prev[id]).value) && Holds(t', RowFor(kind, next[id]).value);
    } else if id :| id in prev && HasKey(kind, prev[id], key) {
      assert !Leaves(prev, next, id);
      assert HasKey(kind, next[id], key);
    }
  }

  // ------------------------------------------------------------------- retries

  // Only keys that the difference deletes or adds may differ.
  ghost predicate Touched(kind: Kind, prev: Users, next: Users, t: Table, t': Table) {
    forall key :: !Added(kind, prev, next, key) && !Deleted(kind, prev, next, key) ==> SameAt(t, t', key)
  }

  lemma TouchedTwice(kind: Kind, prev: Users, next: Users, t: Table, t': Table, t'': Table)
    requires Touched(kind, prev, next, t, t') && Touched(kind, prev, next, t', t'')
    ensures Touched(kind, prev, next, t, t'')
  {}

  // Whatever failed attempts left of the touched keys, a later success patches the
  // table that was there at first.
  lemma RetryConverges(kind: Kind, prev: Users, next: Users, t: Table, left: Table, t': Table)
    requires Touched(kind, prev, next, t, left) && Patched(kind, prev, next, left, t')
    ensures Patched(kind, prev, next, t, t')
  {
    forall key
      ensures PatchedAt(kind, prev, next, t, t', key)
    {
      assert PatchedAt(kind, prev, next, left, t', key);
    }
  }

  // A row that a failed list left in a VLESS table stays when the next list lacks its
  // user.
  lemma LeftoverRowStays(key: string, left: Table, t': Table)
    requires key in left && Patched(Vless, map[], map[], left, t')
    ensures key in t' && !Agrees(Vless, map[], t')
  {
    assert PatchedAt(Vless, map[], map[], left, t', key);
    assert !Owned(Vless, map[], key);
  }

  // There is only one way to patch a table.
  lemma PatchIsUnique(kind: Kind, prev: Users, next: Users, t: Table, first: Table, second: Table)
    requires Patched(kind, prev, next, t, first) && Patched(kind, prev, next, t, second)
    ensures first == second
  {
    forall key
      ensures SameAt(first, second, key)
    {
      assert PatchedAt(kind, prev, next, t, first, key) && PatchedAt(kind, prev, next, t, second, key);
    }
    SameTables(first, second);
  }

  // Inbounds of other kinds have nothing to patch.
  lemma OthersStay(prev: Users, next: Users, t: Table)
    ensures Patched(Other, prev, next, t, t)
  {}

  lemma SameTables(t: Table, t': Table)
    requires forall key :: SameAt(t, t', key)
    ensures t == t'
  {
    forall key
      ensures key in t <==> key in t'
    {
      assert SameAt(t, t', key);
    }
    assert t.Keys == t'.Keys;
    forall key | key in t
      ensures t[key] == t'[key]
    {
      assert SameAt(t, t', key);
    }
  }
}
