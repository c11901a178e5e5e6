/** The permissions of a key, folded from the append-only tables of the authorization database. */
module Permissions {
  import opened Wrappers

  // ---------- The logs ----------

  /**
   A row of key_grants, role_grants or key_roles: whom it concerns, the
   capability or role, and a scope. A name that begins with '!' revokes.
   Columns may be null.
   */
  datatype LogRow = LogRow(owner: Option<string>, name: Option<string>, scope: Option<string>)

  datatype AuthTables = AuthTables(keyGrants: seq<LogRow>, roleGrants: seq<LogRow>, keyRoles: seq<LogRow>)

  /** A name and a scope. */
  type Entry = (string, string)

  predicate IsRevoke(name: string) { name != "" && name[0] == '!' }

  function ScopeOf(row: LogRow): string { if row.scope.Some? then row.scope.value else "*" }

  /** The entries of one owner: those that grant, or those that revoke, in the order of the log. */
  function Entries(rows: seq<LogRow>, owner: string, revoke: bool): seq<Entry> {
    if rows == [] then []
    else
      var row := rows[|rows| - 1];
      Entries(rows[..|rows| - 1], owner, revoke) +
      if row.owner == Some(owner) && row.name.Some? && IsRevoke(row.name.value) == revoke then
        [(if revoke then row.name.value[1..] else row.name.value, ScopeOf(row))]
      else []
  }

  type Table = map<string, seq<Entry>>

  function Lookup(t: Table, owner: string): seq<Entry> { if owner in t then t[owner] else [] }

  /** `t[owner].push_back(e)`. */
  function PushBack(t: Table, owner: string, e: Entry): Table { t[owner := Lookup(t, owner) + [e]] }

  /** The table lists exactly these entries, and no owner without entries. */
  ghost predicate Lists(t: Table, rows: seq<LogRow>, revoke: bool) {
    forall owner: string ::
      Lookup(t, owner) == Entries(rows, owner, revoke) && (owner in t ==> Entries(rows, owner, revoke) != [])
  }

  /** One of the scans of LoadAuthSnapshot. */
  method LoadLog(rows: seq<LogRow>) returns (granted: Table, revoked: Table)
    ensures Lists(granted, rows, false) && Lists(revoked, rows, true)
  {
    hide Lists, Entries;
    granted, revoked := map[], map[];
    NothingListed();
    for i := 0 to |rows|
      invariant Lists(granted, rows[..i], false) && Lists(revoked, rows[..i], true)
    {
      assert rows[..i + 1] == rows[..i] + [rows[i]];
      ListsMore(granted, rows[..i], rows[i], false);
      ListsMore(revoked, rows[..i], rows[i], true);
      var row := rows[i];
      if row.owner.Some? && row.name.Some? {
        if IsRevoke(row.name.value) {
          revoked := PushBack(revoked, row.owner.value, (row.name.value[1..], ScopeOf(row)));
        } else {
          granted := PushBack(granted, row.owner.value, (row.name.value, ScopeOf(row)));
        }
      }
    }
    assert rows[..|rows|] == rows;
  }

  lemma NothingListed()
    ensures Lists(map[], [], false) && Lists(map[], [], true)
  {
  }

  /** What one more row does to a table. */
  lemma ListsMore(t: Table, rows: seq<LogRow>, row: LogRow, revoke: bool)
    requires Lists(t, rows, revoke)
    ensures row.owner.Some? && row.name.Some? && IsRevoke(row.name.value) == revoke ==>
              Lists(PushBack(t, row.owner.value, (if revoke then row.name.value[1..] else row.name.value, ScopeOf(row))),
                    rows + [row], revoke)
    ensures !(row.owner.Some? && row.name.Some? && IsRevoke(row.name.value) == revoke) ==> Lists(t, rows + [row], revoke)
  {
    hide Entries, ScopeOf;
    var more := rows + [row];
    if row.owner.Some? && row.name.Some? && IsRevoke(row.name.value) == revoke {
      var e := (if revoke then row.name.value[1..] else row.name.value, ScopeOf(row));
      var t' := PushBack(t, row.owner.value, e);
      forall owner: string
        ensures Lookup(t', owner) == Entries(more, owner, revoke) && (owner in t' ==> Entries(more, owner, revoke) != [])
      {
        EntriesMore(rows, row, owner, revoke);
        OneEntry(row, owner, revoke);
      }
    } else {
      forall owner: string
        ensures Lookup(t, owner) == Entries(more, owner, revoke) && (owner in t ==> Entries(more, owner, revoke) != [])
      {
        EntriesMore(rows, row, owner, revoke);
        OneEntry(row, owner, revoke);
      }
    }
  }

  lemma OneEntry(row: LogRow, owner: string, revoke: bool)
    ensures Entries([row], owner, revoke) ==
            if row.owner == Some(owner) && row.name.Some? && IsRevoke(row.name.value) == revoke then
              [(if revoke then row.name.value[1..] else row.name.value, ScopeOf(row))]
            else []
  {
    hide ScopeOf, IsRevoke;
    assert [row][..0] == [];
  }

  lemma EntriesMore(rows: seq<LogRow>, row: LogRow, owner: string, revoke: bool)
    ensures Entries(rows + [row], owner, revoke) == Entries(rows, owner, revoke) + Entries([row], owner, revoke)
  {
    hide ScopeOf, IsRevoke;
    assert (rows + [row])[..|rows|] == rows;
    OneEntry(row, owner, revoke);
  }

  // ---------- Grants and revokes ----------

  /** The scopes granted for each capability. */
  type PermissionSet = map<string, set<string>>

  datatype Op = Grant(cap: string, scope: string) | Revoke(cap: string, scope: string)

  const DATABASE_CAPS := ["db.list", "db.read", "db.write", "db.create", "db.drop", "db.truncate"]

  function CombineScopes(roleScope: string, assignmentScope: string): (scope: string)
    ensures scope != ""
    ensures scope == "*" <==> roleScope in ["", "*"] && assignmentScope in ["", "*"]
    ensures assignmentScope !in ["", "*"] ==> scope == assignmentScope
    ensures assignmentScope in ["", "*"] && roleScope != "" ==> scope == roleScope
  {
    if assignmentScope == "" || assignmentScope == "*" then (if roleScope == "" then "*" else roleScope)
    else if roleScope == "" || roleScope == "*" then assignmentScope
    else if roleScope == assignmentScope then roleScope
    else assignmentScope
  }

  function NonEmpty(scope: string): string { if scope == "" then "*" else scope }

  function Insert(perms: PermissionSet, cap: string, scope: string): PermissionSet {
    perms[cap := (if cap in perms then perms[cap] else {}) + {scope}]
  }

  method AddPermission(perms: PermissionSet, cap: string, scope: string) returns (perms': PermissionSet)
    ensures perms' == Apply(perms, Grant(cap, scope))
  {
    perms' := Insert(perms, cap, NonEmpty(scope));
    if cap == "db.admin" {
      ghost var first := perms';
      for i := 0 to |DATABASE_CAPS|
        invariant perms' == InsertAll(first, DATABASE_CAPS[..i], NonEmpty(scope))
      {
        assert DATABASE_CAPS[..i + 1][..i] == DATABASE_CAPS[..i];
        perms' := Insert(perms', DATABASE_CAPS[i], NonEmpty(scope));
      }
      assert DATABASE_CAPS[..|DATABASE_CAPS|] == DATABASE_CAPS;
    }
  }

  function InsertAll(perms: PermissionSet, caps: seq<string>, scope: string): PermissionSet {
    if caps == [] then perms else Insert(InsertAll(perms, caps[..|caps| - 1], scope), caps[|caps| - 1], scope)
  }

  method RevokeGrant(perms: PermissionSet, cap: string, scope: string) returns (perms': PermissionSet)
    ensures perms' == Apply(perms, Revoke(cap, scope))
  {
    if cap !in perms {
      return perms;
    }
    if scope == "" || scope == "*" {
      return perms - {cap};
    }
    var rest := perms[cap] - {scope};
    if rest == {} {
      return perms - {cap};
    }
    return perms[cap := rest];
  }

  function Apply(perms: PermissionSet, op: Op): PermissionSet {
    match op
    case Grant(cap, scope) =>
      var one := Insert(perms, cap, NonEmpty(scope));
      if cap == "db.admin" then InsertAll(one, DATABASE_CAPS, NonEmpty(scope)) else one
    case Revoke(cap, scope) =>
      if cap !in perms then perms
      else if scope == "" || scope == "*" || perms[cap] - {scope} == {} then perms - {cap}
      else perms[cap := perms[cap] - {scope}]
  }

  function Fold(ops: seq<Op>): PermissionSet {
    if ops == [] then map[] else Apply(Fold(ops[..|ops| - 1]), ops[|ops| - 1])
  }

  // ---------- The steps of BuildPermissions, in its order ----------

  function Ops(entries: seq<Entry>, revoke: bool): (ops: seq<Op>)
    ensures |ops| == |entries|
  {
    seq(|entries|, i requires 0 <= i < |entries| =>
      if revoke then Revoke(entries[i].0, entries[i].1) else Grant(entries[i].0, entries[i].1))
  }

  /** The entries of a role, with the scopes that its assignment leaves them. */
  function Scoped(entries: seq<Entry>, assignment: string): (r: seq<Entry>)
    ensures |r| == |entries|
    ensures forall i :: 0 <= i < |r| ==>
              r[i].0 == entries[i].0 &&
              r[i].1 == if assignment !in ["", "*"] then assignment else if entries[i].1 == "" then "*" else entries[i].1
  {
    seq(|entries|, i requires 0 <= i < |entries| => (entries[i].0, CombineScopes(entries[i].1, assignment)))
  }

  /** One assigned role. A role without grants is passed over, and its revokes with it. */
  function RoleOps(a: AuthTables, role: Entry): seq<Op> {
    var grants := Entries(a.roleGrants, role.0, false);
    if grants == [] then []
    else Ops(Scoped(grants, role.1), false) + Ops(Scoped(Entries(a.roleGrants, role.0, true), role.1), true)
  }

  /** One revoked role: each of its grants is revoked. */
  function RoleRevokeOps(a: AuthTables, role: Entry): seq<Op> {
    Ops(Scoped(Entries(a.roleGrants, role.0, false), role.1), true)
  }

  function AllRoleOps(a: AuthTables, roles: seq<Entry>): seq<Op> {
    if roles == [] then [] else AllRoleOps(a, roles[..|roles| - 1]) + RoleOps(a, roles[|roles| - 1])
  }

  function AllRoleRevokeOps(a: AuthTables, roles: seq<Entry>): seq<Op> {
    if roles == [] then [] else AllRoleRevokeOps(a, roles[..|roles| - 1]) + RoleRevokeOps(a, roles[|roles| - 1])
  }

  /** All steps for one key. */
  function Steps(a: AuthTables, fingerprint: string): seq<Op> {
    Ops(Entries(a.keyGrants, fingerprint, false), false) + Ops(Entries(a.keyGrants, fingerprint, true), true)
    + AllRoleOps(a, Entries(a.keyRoles, fingerprint, false))
    + AllRoleRevokeOps(a, Entries(a.keyRoles, fingerprint, true))
  }

  lemma FoldMore(ops: seq<Op>, op: Op)
    ensures Fold(ops + [op]) == Apply(Fold(ops), op)
  {
    assert (ops + [op])[..|ops|] == ops;
  }

  /** Grants or revokes a list of entries; a role's entries get their scope from the assignment. */
  method ApplyEntries(perms: PermissionSet, entries: seq<Entry>, revoke: bool, ghost before: seq<Op>)
      returns (perms': PermissionSet)
    requires perms == Fold(before)
    ensures perms' == Fold(before + Ops(entries, revoke))
  {
    hide Fold, Apply, Ops;
    ghost var ops := Ops(entries, revoke);
    perms' := perms;
    assert before + ops[..0] == before;
    for i := 0 to |entries|
      invariant perms' == Fold(before + ops[..i])
    {
      FoldMore(before + ops[..i], ops[i]);
      OpAt(entries, revoke, i);
      assert before + ops[..i + 1] == (before + ops[..i]) + [ops[i]];
      if revoke {
        perms' := RevokeGrant(perms', entries[i].0, entries[i].1);
      } else {
        perms' := AddPermission(perms', entries[i].0, entries[i].1);
      }
    }
    assert ops[..|entries|] == ops;
  }

  lemma OpAt(entries: seq<Entry>, revoke: bool, i: nat)
    requires i < |entries|
    ensures Ops(entries, revoke)[i] ==
            if revoke then Revoke(entries[i].0, entries[i].1) else Grant(entries[i].0, entries[i].1)
  {
  }

  method BuildPermissions(a: AuthTables, fingerprint: string) returns (perms: PermissionSet)
    ensures perms == Fold(Steps(a, fingerprint))
  {
    hide Fold, Entries, Ops, Scoped;
    var keyGrants, keyRevokes := LoadLog(a.keyGrants);
    var roleGrants, roleRevokes := LoadLog(a.roleGrants);
    var keyRoles, keyRoleRevokes := LoadLog(a.keyRoles);
    perms := map[];
    FoldNothing();
    perms := ApplyEntries(perms, Lookup(keyGrants, fingerprint), false, []);
    ghost var done := Ops(Lookup(keyGrants, fingerprint), false);
    assert [] + done == done;
    perms := ApplyEntries(perms, Lookup(keyRevokes, fingerprint), true, done);
    done := done + Ops(Lookup(keyRevokes, fingerprint), true);
    perms := ApplyRoles(a, perms, Lookup(keyRoles, fingerprint), roleGrants, roleRevokes, done);
    done := done + AllRoleOps(a, Lookup(keyRoles, fingerprint));
    perms := ApplyRoleRevokes(a, perms, Lookup(keyRoleRevokes, fingerprint), roleGrants, done);
  }

  lemma FoldNothing()
    ensures Fold([]) == map[]
  {
  }

  method ApplyRoles(ghost a: AuthTables, perms: PermissionSet, roles: seq<Entry>, roleGrants: Table, roleRevokes: Table,
                    ghost before: seq<Op>)
      returns (perms': PermissionSet)
    requires Lists(roleGrants, a.roleGrants, false) && Lists(roleRevokes, a.roleGrants, true)
    requires perms == Fold(before)
    ensures perms' == Fold(before + AllRoleOps(a, roles))
  {
    hide Fold, Entries, Ops, Scoped;
    perms' := perms;
    assert before + AllRoleOps(a, []) == before;
    for i := 0 to |roles|
      invariant perms' == Fold(before + AllRoleOps(a, roles[..i]))
    {
      ghost var done := before + AllRoleOps(a, roles[..i]);
      assert roles[..i + 1][..i] == roles[..i];
      Rejoin(before, AllRoleOps(a, roles[..i]), RoleOps(a, roles[i]));
      var role, scope := roles[i].0, roles[i].1;
      if role !in roleGrants {
        assert done + [] == done;
        continue;
      }
      var grants, revokes := Scoped(roleGrants[role], scope), Scoped(Lookup(roleRevokes, role), scope);
      perms' := ApplyEntries(perms', grants, false, done);
      perms' := ApplyEntries(perms', revokes, true, done + Ops(grants, false));
      Rejoin(done, Ops(grants, false), Ops(revokes, true));
    }
    assert roles[..|roles|] == roles;
  }

  method ApplyRoleRevokes(ghost a: AuthTables, perms: PermissionSet, roles: seq<Entry>, roleGrants: Table,
                          ghost before: seq<Op>)
      returns (perms': PermissionSet)
    requires Lists(roleGrants, a.roleGrants, false) && perms == Fold(before)
    ensures perms' == Fold(before + AllRoleRevokeOps(a, roles))
  {
    hide Fold, Entries, Ops, Scoped;
    perms' := perms;
    assert before + AllRoleRevokeOps(a, []) == before;
    for i := 0 to |roles|
      invariant perms' == Fold(before + AllRoleRevokeOps(a, roles[..i]))
    {
      ghost var done := before + AllRoleRevokeOps(a, roles[..i]);
      assert roles[..i + 1][..i] == roles[..i];
      Rejoin(before, AllRoleRevokeOps(a, roles[..i]), RoleRevokeOps(a, roles[i]));
      var grants := Scoped(Lookup(roleGrants, roles[i].0), roles[i].1);
      perms' := ApplyEntries(perms', grants, true, done);
    }
    assert roles[..|roles|] == roles;
  }

  lemma Rejoin(a: seq<Op>, b: seq<Op>, c: seq<Op>)
    ensures (a + b) + c == a + (b + c)
  {
  }

  // ---------- What the fold means ----------

  /** The step grants the capability with the scope. */
  predicate Produces(op: Op, cap: string, scope: string) {
    op.Grant? && NonEmpty(op.scope) == scope && (op.cap == cap || (op.cap == "db.admin" && cap in DATABASE_CAPS))
  }

  /** The step revokes it: the same scope, or all scopes. */
  predicate Cancels(op: Op, cap: string, scope: string) {
    op.Revoke? && op.cap == cap && (op.scope == scope || op.scope == "" || op.scope == "*")
  }

  predicate Granted(perms: PermissionSet, cap: string, scope: string) { cap in perms && scope in perms[cap] }

  /** Step `i` grants it and no later step revokes it. */
  predicate Stands(ops: seq<Op>, i: nat, cap: string, scope: string)
    requires i < |ops|
  {
    Produces(ops[i], cap, scope) && forall j :: i < j < |ops| ==> !Cancels(ops[j], cap, scope)
  }

  predicate NoEmptyScopes(perms: PermissionSet) { forall cap :: cap in perms ==> perms[cap] != {} }

  lemma {:induction false} InsertAllGrants(perms: PermissionSet, caps: seq<string>, added: string, cap: string, scope: string)
    ensures Granted(InsertAll(perms, caps, added), cap, scope) <==>
            Granted(perms, cap, scope) || (cap in caps && scope == added)
    ensures NoEmptyScopes(perms) ==> NoEmptyScopes(InsertAll(perms, caps, added))
  {
    if caps != [] {
      InsertAllGrants(perms, caps[..|caps| - 1], added, cap, scope);
    }
  }

  lemma ApplyGrants(perms: PermissionSet, op: Op, cap: string, scope: string)
    requires NoEmptyScopes(perms)
    ensures NoEmptyScopes(Apply(perms, op))
    ensures Granted(Apply(perms, op), cap, scope) <==>
            Produces(op, cap, scope) || (Granted(perms, cap, scope) && !Cancels(op, cap, scope))
  {
    hide InsertAll;
    if op.Grant? {
      InsertAllGrants(Insert(perms, op.cap, NonEmpty(op.scope)), DATABASE_CAPS, NonEmpty(op.scope), cap, scope);
    } else {
      RevokeTakes(perms, op.cap, op.scope, cap, scope);
    }
  }

  lemma RevokeTakes(perms: PermissionSet, revoked: string, revokedScope: string, cap: string, scope: string)
    requires NoEmptyScopes(perms)
    ensures var op := Revoke(revoked, revokedScope);
            && NoEmptyScopes(Apply(perms, op))
            && (Granted(Apply(perms, op), cap, scope) <==> Granted(perms, cap, scope) && !Cancels(op, cap, scope))
  {
    if revoked in perms && cap == revoked && scope in perms[cap] && scope != revokedScope {
      assert scope in perms[cap] - {revokedScope};
    }
  }

  lemma {:induction false} FoldMeaning(ops: seq<Op>, cap: string, scope: string)
    ensures NoEmptyScopes(Fold(ops))
    ensures Granted(Fold(ops), cap, scope) <==> exists i :: 0 <= i < |ops| && Stands(ops, i, cap, scope)
  {
    hide Apply, Produces, Cancels;
    if ops != [] {
      var n := |ops| - 1;
      FoldMeaning(ops[..n], cap, scope);
      ApplyGrants(Fold(ops[..n]), ops[n], cap, scope);
      ProducesNotCancels(ops[n], cap, scope);
      if i :| 0 <= i < n && Stands(ops[..n], i, cap, scope) {
        assert !Cancels(ops[n], cap, scope) ==> Stands(ops, i, cap, scope);
      }
      if i :| 0 <= i < n && Stands(ops, i, cap, scope) {
        assert Stands(ops[..n], i, cap, scope);
      }
      assert Stands(ops, n, cap, scope) <==> Produces(ops[n], cap, scope);
    }
  }

  lemma ProducesNotCancels(op: Op, cap: string, scope: string)
    ensures !(Produces(op, cap, scope) && Cancels(op, cap, scope))
  {
  }

  /**
   A key has a capability in a scope exactly when some step grants it and no
   later step revokes it, and no capability is left without a scope.
   */
  lemma PermissionsMean(a: AuthTables, fingerprint: string, cap: string, scope: string)
    ensures NoEmptyScopes(Fold(Steps(a, fingerprint)))
    ensures Granted(Fold(Steps(a, fingerprint)), cap, scope) <==>
            exists i :: 0 <= i < |Steps(a, fingerprint)| && Stands(Steps(a, fingerprint), i, cap, scope)
  {
    hide Steps;
    FoldMeaning(Steps(a, fingerprint), cap, scope);
  }

  // ---------- The same from the logs, without the steps ----------

  /** The entry grants the capability in the scope; the administration of databases includes six capabilities. */
  predicate Includes(e: Entry, cap: string, scope: string) {
    && (if e.1 == "" then "*" else e.1) == scope
    && (e.0 == cap ||
        (e.0 == "db.admin" && cap in {"db.list", "db.read", "db.write", "db.create", "db.drop", "db.truncate"}))
  }

  /** The entry names the capability itself, with the scope or with all scopes. */
  predicate Excludes(e: Entry, cap: string, scope: string) { e.0 == cap && e.1 in ["", "*", scope] }

  predicate GrantedIn(entries: seq<Entry>, cap: string, scope: string) {
    exists e :: e in entries && Includes(e, cap, scope)
  }

  predicate RevokedIn(entries: seq<Entry>, cap: string, scope: string) {
    exists e :: e in entries && Excludes(e, cap, scope)
  }

  lemma EntryOps(e: Entry, cap: string, scope: string)
    ensures Produces(Grant(e.0, e.1), cap, scope) <==> Includes(e, cap, scope)
    ensures Cancels(Revoke(e.0, e.1), cap, scope) <==> Excludes(e, cap, scope)
    ensures !Cancels(Grant(e.0, e.1), cap, scope) && !Produces(Revoke(e.0, e.1), cap, scope)
  {
  }

  /** The grants of a role as its assignment limits them, and its revokes, which count only if it grants anything. */
  function GrantsOf(a: AuthTables, role: Entry): seq<Entry> { Scoped(Entries(a.roleGrants, role.0, false), role.1) }

  function RevokesOf(a: AuthTables, role: Entry): seq<Entry> {
    if Entries(a.roleGrants, role.0, false) == [] then [] else Scoped(Entries(a.roleGrants, role.0, true), role.1)
  }

  ghost predicate Gives(ops: seq<Op>, cap: string, scope: string) {
    exists i :: 0 <= i < |ops| && Stands(ops, i, cap, scope)
  }

  ghost predicate Silent(ops: seq<Op>, cap: string, scope: string) {
    forall i :: 0 <= i < |ops| ==> !Cancels(ops[i], cap, scope)
  }

  lemma SilentConcat(a: seq<Op>, b: seq<Op>, cap: string, scope: string)
    ensures Silent(a + b, cap, scope) <==> Silent(a, cap, scope) && Silent(b, cap, scope)
  {
    hide Cancels;
    var ab := a + b;
    if Silent(ab, cap, scope) {
      forall i | 0 <= i < |a|
        ensures !Cancels(a[i], cap, scope)
      {
        assert ab[i] == a[i];
      }
      forall i | 0 <= i < |b|
        ensures !Cancels(b[i], cap, scope)
      {
        assert ab[|a| + i] == b[i];
      }
    }
  }

  /** A grant of the first steps is found behind the second exactly if those are silent about it. */
  lemma StandsConcat(a: seq<Op>, b: seq<Op>, i: nat, cap: string, scope: string)
    requires i < |a| + |b|
    ensures Stands(a + b, i, cap, scope) <==>
            if i < |a| then Stands(a, i, cap, scope) && Silent(b, cap, scope) else Stands(b, i - |a|, cap, scope)
  {
    hide Produces, Cancels;
    var ab := a + b;
    forall j | 0 <= j < |ab|
      ensures ab[j] == if j < |a| then a[j] else b[j - |a|]
    {
    }
    if Stands(ab, i, cap, scope) {
      forall j | 0 <= j < |b| && i < |a| + j
        ensures !Cancels(b[j], cap, scope)
      {
        assert b[j] == ab[|a| + j];
      }
    }
  }

  lemma GivesConcat(a: seq<Op>, b: seq<Op>, cap: string, scope: string)
    ensures Gives(a + b, cap, scope) <==> Gives(b, cap, scope) || (Gives(a, cap, scope) && Silent(b, cap, scope))
    ensures Silent(a + b, cap, scope) <==> Silent(a, cap, scope) && Silent(b, cap, scope)
  {
    hide Stands, Silent;
    SilentConcat(a, b, cap, scope);
    forall i | 0 <= i < |a| + |b|
      ensures Stands(a + b, i, cap, scope) <==>
              if i < |a| then Stands(a, i, cap, scope) && Silent(b, cap, scope) else Stands(b, i - |a|, cap, scope)
    {
      StandsConcat(a, b, i, cap, scope);
    }
    if i :| 0 <= i < |b| && Stands(b, i, cap, scope) {
      assert Stands(a + b, |a| + i, cap, scope);
    }
    if i :| 0 <= i < |a| && Stands(a, i, cap, scope) {
      assert Silent(b, cap, scope) ==> Stands(a + b, i, cap, scope);
    }
  }

  lemma GrantingOps(entries: seq<Entry>, cap: string, scope: string)
    ensures Gives(Ops(entries, false), cap, scope) <==> GrantedIn(entries, cap, scope)
    ensures Silent(Ops(entries, false), cap, scope)
  {
    hide Produces, Cancels, Includes, Excludes;
    var ops := Ops(entries, false);
    forall i | 0 <= i < |ops|
      ensures !Cancels(ops[i], cap, scope) && (Produces(ops[i], cap, scope) <==> Includes(entries[i], cap, scope))
    {
      EntryOps(entries[i], cap, scope);
    }
    if GrantedIn(entries, cap, scope) {
      var e :| e in entries && Includes(e, cap, scope);
      var i :| 0 <= i < |entries| && entries[i] == e;
      assert Stands(ops, i, cap, scope);
    }
    if i :| 0 <= i < |ops| && Stands(ops, i, cap, scope) {
      assert entries[i] in entries;
    }
  }

  lemma RevokingOps(entries: seq<Entry>, cap: string, scope: string)
    ensures !Gives(Ops(entries, true), cap, scope)
    ensures Silent(Ops(entries, true), cap, scope) <==> !RevokedIn(entries, cap, scope)
  {
    hide Produces, Cancels, Includes, Excludes;
    var ops := Ops(entries, true);
    forall i | 0 <= i < |ops|
      ensures !Produces(ops[i], cap, scope) && (Cancels(ops[i], cap, scope) <==> Excludes(entries[i], cap, scope))
      ensures entries[i] in entries
    {
      EntryOps(entries[i], cap, scope);
    }
    if RevokedIn(entries, cap, scope) {
      var e :| e in entries && Excludes(e, cap, scope);
      var i :| 0 <= i < |entries| && entries[i] == e;
      assert Cancels(ops[i], cap, scope);
    }
  }

  lemma OneRoleOps(a: AuthTables, role: Entry, cap: string, scope: string)
    ensures Gives(RoleOps(a, role), cap, scope) <==>
            GrantedIn(GrantsOf(a, role), cap, scope) && !RevokedIn(RevokesOf(a, role), cap, scope)
    ensures Silent(RoleOps(a, role), cap, scope) <==> !RevokedIn(RevokesOf(a, role), cap, scope)
  {
    hide Gives, Silent, Ops, Entries, GrantedIn, RevokedIn;
    var grants := Entries(a.roleGrants, role.0, false);
    if grants == [] {
      GrantingOps([], cap, scope);
      RevokingOps([], cap, scope);
      assert Ops([], false) == [];
      NothingIn(cap, scope);
    } else {
      GrantingOps(GrantsOf(a, role), cap, scope);
      RevokingOps(RevokesOf(a, role), cap, scope);
      GivesConcat(Ops(GrantsOf(a, role), false), Ops(RevokesOf(a, role), true), cap, scope);
    }
  }

  lemma NothingIn(cap: string, scope: string)
    ensures !GrantedIn([], cap, scope) && !RevokedIn([], cap, scope)
    ensures !Gives([], cap, scope) && Silent([], cap, scope)
  {
  }

  /** Role `i` of the key grants it, and neither its own revokes nor those of a later role take it away. */
  predicate RoleStands(a: AuthTables, roles: seq<Entry>, i: nat, cap: string, scope: string)
    requires i < |roles|
  {
    && GrantedIn(GrantsOf(a, roles[i]), cap, scope)
    && forall j :: i <= j < |roles| ==> !RevokedIn(RevokesOf(a, roles[j]), cap, scope)
  }

  lemma {:induction false} RolesGive(a: AuthTables, roles: seq<Entry>, cap: string, scope: string)
    ensures Gives(AllRoleOps(a, roles), cap, scope) <==> exists i :: 0 <= i < |roles| && RoleStands(a, roles, i, cap, scope)
    ensures Silent(AllRoleOps(a, roles), cap, scope) <==>
            forall j :: 0 <= j < |roles| ==> !RevokedIn(RevokesOf(a, roles[j]), cap, scope)
  {
    hide Gives, Silent, RoleOps, GrantedIn, RevokedIn, GrantsOf, RevokesOf;
    NothingIn(cap, scope);
    if roles != [] {
      var n := |roles| - 1;
      RolesGive(a, roles[..n], cap, scope);
      OneRoleOps(a, roles[n], cap, scope);
      GivesConcat(AllRoleOps(a, roles[..n]), RoleOps(a, roles[n]), cap, scope);
      if i :| 0 <= i < n && RoleStands(a, roles[..n], i, cap, scope) {
        assert !RevokedIn(RevokesOf(a, roles[n]), cap, scope) ==> RoleStands(a, roles, i, cap, scope);
      }
      if i :| 0 <= i < n && RoleStands(a, roles, i, cap, scope) {
        assert RoleStands(a, roles[..n], i, cap, scope);
      }
      assert RoleStands(a, roles, n, cap, scope) <==> Gives(RoleOps(a, roles[n]), cap, scope);
    }
  }

  lemma {:induction false} RoleRevokesSilent(a: AuthTables, roles: seq<Entry>, cap: string, scope: string)
    ensures !Gives(AllRoleRevokeOps(a, roles), cap, scope)
    ensures Silent(AllRoleRevokeOps(a, roles), cap, scope) <==>
            forall j :: 0 <= j < |roles| ==> !RevokedIn(GrantsOf(a, roles[j]), cap, scope)
  {
    hide Gives, Silent, Ops, RevokedIn, Entries, Scoped;
    NothingIn(cap, scope);
    if roles != [] {
      var n := |roles| - 1;
      RoleRevokesSilent(a, roles[..n], cap, scope);
      RevokingOps(GrantsOf(a, roles[n]), cap, scope);
      GivesConcat(AllRoleRevokeOps(a, roles[..n]), RoleRevokeOps(a, roles[n]), cap, scope);
    }
  }

  /**
   None of the dropped roles lists it, and either one of the roles grants it, and
   neither that role nor a later one revokes it, or the key's own entries grant
   it and neither they nor any role revoke it.
   */
  predicate Allowed(a: AuthTables, own: seq<Entry>, taken: seq<Entry>, roles: seq<Entry>, dropped: seq<Entry>,
                    cap: string, scope: string) {
    && (forall j :: 0 <= j < |dropped| ==> !RevokedIn(GrantsOf(a, dropped[j]), cap, scope))
    && ((exists i :: 0 <= i < |roles| && RoleStands(a, roles, i, cap, scope)) ||
        (GrantedIn(own, cap, scope) && !RevokedIn(taken, cap, scope) &&
         forall j :: 0 <= j < |roles| ==> !RevokedIn(RevokesOf(a, roles[j]), cap, scope)))
  }

  /** Which permissions the logs give, without the order in which the code goes through them. */
  lemma PermissionsExactly(a: AuthTables, fingerprint: string, cap: string, scope: string)
    ensures Granted(Fold(Steps(a, fingerprint)), cap, scope) <==>
            Allowed(a, Entries(a.keyGrants, fingerprint, false), Entries(a.keyGrants, fingerprint, true),
                    Entries(a.keyRoles, fingerprint, false), Entries(a.keyRoles, fingerprint, true), cap, scope)
  {
    hide Fold, Allowed, Gives, Granted, AllRoleOps, AllRoleRevokeOps, Ops;
    StepsGive(a, Entries(a.keyGrants, fingerprint, false), Entries(a.keyGrants, fingerprint, true),
              Entries(a.keyRoles, fingerprint, false), Entries(a.keyRoles, fingerprint, true), cap, scope);
    FoldGives(Steps(a, fingerprint), cap, scope);
  }

  lemma StepsGive(a: AuthTables, own: seq<Entry>, taken: seq<Entry>, roles: seq<Entry>, dropped: seq<Entry>,
                  cap: string, scope: string)
    ensures Gives(Ops(own, false) + Ops(taken, true) + AllRoleOps(a, roles) + AllRoleRevokeOps(a, dropped), cap, scope) <==>
            Allowed(a, own, taken, roles, dropped, cap, scope)
  {
    hide Gives, Silent, Ops, GrantedIn, RevokedIn, GrantsOf, RevokesOf, RoleStands;
    var first, second := Ops(own, false), Ops(taken, true);
    var third, fourth := AllRoleOps(a, roles), AllRoleRevokeOps(a, dropped);
    GivesConcat(first + second + third, fourth, cap, scope);
    GivesConcat(first + second, third, cap, scope);
    GivesConcat(first, second, cap, scope);
    GrantingOps(own, cap, scope);
    RevokingOps(taken, cap, scope);
    RolesGive(a, roles, cap, scope);
    RoleRevokesSilent(a, dropped, cap, scope);
  }

  lemma FoldGives(ops: seq<Op>, cap: string, scope: string)
    ensures Granted(Fold(ops), cap, scope) <==> Gives(ops, cap, scope)
  {
    FoldMeaning(ops, cap, scope);
  }

  /**
   Revoking the administration of databases takes back only its own name: a key
   that was granted it in a scope keeps the six capabilities that came with it.
   */
  lemma AdminRevokeKeepsCapabilities(fingerprint: string, scope: string, cap: string)
    requires scope != "" && cap in {"db.list", "db.read", "db.write", "db.create", "db.drop", "db.truncate"}
    ensures var log := [LogRow(Some(fingerprint), Some("db.admin"), Some(scope)),
                        LogRow(Some(fingerprint), Some("!db.admin"), Some(scope))];
            var perms := Fold(Steps(AuthTables(log, [], []), fingerprint));
            Granted(perms, cap, scope) && !Granted(perms, "db.admin", scope)
  {
    hide Fold, Steps, Entries, Allowed;
    var log := [LogRow(Some(fingerprint), Some("db.admin"), Some(scope)),
                LogRow(Some(fingerprint), Some("!db.admin"), Some(scope))];
    var a, e := AuthTables(log, [], []), ("db.admin", scope);
    AdminEntries(fingerprint, scope);
    NoEntries(fingerprint, false);
    NoEntries(fingerprint, true);
    PermissionsExactly(a, fingerprint, cap, scope);
    PermissionsExactly(a, fingerprint, "db.admin", scope);
    AdminAllowed(a, scope, cap);
  }

  lemma AdminEntries(fingerprint: string, scope: string)
    ensures var log := [LogRow(Some(fingerprint), Some("db.admin"), Some(scope)),
                        LogRow(Some(fingerprint), Some("!db.admin"), Some(scope))];
            Entries(log, fingerprint, false) == Entries(log, fingerprint, true) == [("db.admin", scope)]
  {
    hide Entries;
    var grant, revoke := LogRow(Some(fingerprint), Some("db.admin"), Some(scope)),
                         LogRow(Some(fingerprint), Some("!db.admin"), Some(scope));
    assert [grant, revoke] == [grant] + [revoke];
    EntriesMore([grant], revoke, fingerprint, false);
    EntriesMore([grant], revoke, fingerprint, true);
    OneEntry(grant, fingerprint, false);
    OneEntry(grant, fingerprint, true);
    OneEntry(revoke, fingerprint, false);
    OneEntry(revoke, fingerprint, true);
  }

  lemma AdminAllowed(a: AuthTables, scope: string, cap: string)
    requires scope != "" && cap in {"db.list", "db.read", "db.write", "db.create", "db.drop", "db.truncate"}
    ensures var e := ("db.admin", scope);
            Allowed(a, [e], [e], [], [], cap, scope) && !Allowed(a, [e], [e], [], [], "db.admin", scope)
  {
    var e := ("db.admin", scope);
    assert e in [e];
    assert cap != "db.admin";
    assert GrantedIn([e], cap, scope) && !RevokedIn([e], cap, scope) && RevokedIn([e], "db.admin", scope);
  }

  /** Whether some row of the key's own log grants it, and whether some row revokes it. */
  predicate GrantLogged(entries: seq<Entry>, cap: string, scope: string) {
    exists i :: 0 <= i < |entries| && Produces(Grant(entries[i].0, entries[i].1), cap, scope)
  }

  predicate RevokeLogged(entries: seq<Entry>, cap: string, scope: string) {
    exists i :: 0 <= i < |entries| && Cancels(Revoke(entries[i].0, entries[i].1), cap, scope)
  }

  /**
   For a key without roles the order of its log does not matter: what is
   revoked in any row stays revoked, also if a later row grants it again.
   */
  lemma KeyLogHasNoOrder(a: AuthTables, fingerprint: string, cap: string, scope: string)
    requires Entries(a.keyRoles, fingerprint, false) == [] && Entries(a.keyRoles, fingerprint, true) == []
    ensures Granted(Fold(Steps(a, fingerprint)), cap, scope) <==>
            GrantLogged(Entries(a.keyGrants, fingerprint, false), cap, scope) &&
            !RevokeLogged(Entries(a.keyGrants, fingerprint, true), cap, scope)
  {
    hide Entries, Produces, Cancels, Fold;
    var grants, revokes := Entries(a.keyGrants, fingerprint, false), Entries(a.keyGrants, fingerprint, true);
    var ops := Ops(grants, false) + Ops(revokes, true);
    assert Steps(a, fingerprint) == ops;
    FoldMeaning(ops, cap, scope);
    OnlyKeySteps(grants, revokes, cap, scope);
  }

  lemma OnlyKeySteps(grants: seq<Entry>, revokes: seq<Entry>, cap: string, scope: string)
    ensures var ops := Ops(grants, false) + Ops(revokes, true);
            (exists i :: 0 <= i < |ops| && Stands(ops, i, cap, scope)) <==>
            GrantLogged(grants, cap, scope) && !RevokeLogged(revokes, cap, scope)
  {
    hide Cancels;
    var ops := Ops(grants, false) + Ops(revokes, true);
    forall j | 0 <= j < |grants|
      ensures !Cancels(ops[j], cap, scope)
    {
      GrantCancelsNothing(ops[j], cap, scope);
    }
    if RevokeLogged(revokes, cap, scope) {
      var i :| 0 <= i < |revokes| && Cancels(Revoke(revokes[i].0, revokes[i].1), cap, scope);
      assert Cancels(ops[|grants| + i], cap, scope);
    } else {
      assert forall j :: |grants| <= j < |ops| ==> ops[j] == Revoke(revokes[j - |grants|].0, revokes[j - |grants|].1);
      if GrantLogged(grants, cap, scope) {
        var i :| 0 <= i < |grants| && Produces(Grant(grants[i].0, grants[i].1), cap, scope);
        assert Stands(ops, i, cap, scope);
      }
    }
  }

  lemma GrantCancelsNothing(op: Op, cap: string, scope: string)
    requires op.Grant?
    ensures !Cancels(op, cap, scope)
  {
  }

  lemma {:induction false} EntriesConcat(a: seq<LogRow>, b: seq<LogRow>, owner: string, revoke: bool)
    ensures Entries(a + b, owner, revoke) == Entries(a, owner, revoke) + Entries(b, owner, revoke)
  {
    hide Entries;
    if b == [] {
      assert a + b == a;
      NoEntries(owner, revoke);
    } else {
      var front, row := b[..|b| - 1], b[|b| - 1];
      EntriesConcat(a, front, owner, revoke);
      EntriesMore(a + front, row, owner, revoke);
      EntriesMore(front, row, owner, revoke);
      assert front + [row] == b && (a + front) + [row] == a + b;
    }
  }

  lemma NoEntries(owner: string, revoke: bool)
    ensures Entries([], owner, revoke) == []
  {
  }

  /** Two neighbouring rows of the key-grant log, one granting and one revoking, may change places. */
  lemma NeighboursCommute(a: AuthTables, before: seq<LogRow>, r: LogRow, q: LogRow, after: seq<LogRow>, fingerprint: string)
    requires r.name.Some? && q.name.Some? && IsRevoke(r.name.value) != IsRevoke(q.name.value)
    ensures Fold(Steps(a.(keyGrants := before + [r, q] + after), fingerprint)) ==
            Fold(Steps(a.(keyGrants := before + [q, r] + after), fingerprint))
  {
    hide Fold;
    var x, y := a.(keyGrants := before + [r, q] + after), a.(keyGrants := before + [q, r] + after);
    PairCommutes(before, r, q, after, fingerprint, false);
    PairCommutes(before, r, q, after, fingerprint, true);
    RolesIgnoreKeyGrants(x, y, Entries(a.keyRoles, fingerprint, false));
    RoleRevokesIgnoreKeyGrants(x, y, Entries(a.keyRoles, fingerprint, true));
  }

  lemma OneRow(r: LogRow, owner: string, revoke: bool)
    requires r.name.Some? && IsRevoke(r.name.value) != revoke
    ensures Entries([r], owner, revoke) == []
  {
    assert [r][..0] == [];
  }

  lemma PairCommutes(before: seq<LogRow>, r: LogRow, q: LogRow, after: seq<LogRow>, owner: string, revoke: bool)
    requires r.name.Some? && q.name.Some? && IsRevoke(r.name.value) != IsRevoke(q.name.value)
    ensures Entries(before + [r, q] + after, owner, revoke) == Entries(before + [q, r] + after, owner, revoke)
  {
    hide Entries, IsRevoke;
    EntriesConcat(before + [r, q], after, owner, revoke);
    EntriesConcat(before + [q, r], after, owner, revoke);
    EntriesConcat(before, [r, q], owner, revoke);
    EntriesConcat(before, [q, r], owner, revoke);
    EntriesConcat([r], [q], owner, revoke);
    EntriesConcat([q], [r], owner, revoke);
    assert [r] + [q] == [r, q] && [q] + [r] == [q, r];
    if IsRevoke(r.name.value) == revoke {
      OneRow(q, owner, revoke);
    } else {
      OneRow(r, owner, revoke);
    }
  }

  lemma {:induction false} RolesIgnoreKeyGrants(x: AuthTables, y: AuthTables, roles: seq<Entry>)
    requires x.roleGrants == y.roleGrants
    ensures AllRoleOps(x, roles) == AllRoleOps(y, roles)
  {
    if roles != [] {
      RolesIgnoreKeyGrants(x, y, roles[..|roles| - 1]);
    }
  }

  lemma {:induction false} RoleRevokesIgnoreKeyGrants(x: AuthTables, y: AuthTables, roles: seq<Entry>)
    requires x.roleGrants == y.roleGrants
    ensures AllRoleRevokeOps(x, roles) == AllRoleRevokeOps(y, roles)
  {
    if roles != [] {
      RoleRevokesIgnoreKeyGrants(x, y, roles[..|roles| - 1]);
    }
  }

  // ---------- Using the permissions ----------

  /** The position of the first dot from `from` on. */
  function FirstDot(s: string, from: nat): (r: Option<nat>)
    requires from <= |s|
    ensures r.Some? ==> from <= r.value < |s| && s[r.value] == '.' && '.' !in s[from..r.value]
    ensures r.None? ==> '.' !in s[from..]
    decreases |s| - from
  {
    if from == |s| then None else if s[from] == '.' then Some(from) else FirstDot(s, from + 1)
  }

  /** A granted scope covers itself, "*" covers all, and a database covers its tables. */
  predicate Covers(granted: string, wanted: string) {
    || granted == "*" || granted == wanted
    || ("dataset:" <= wanted && FirstDot(wanted, 8).Some? &&
        granted == "database:" + wanted[8..FirstDot(wanted, 8).value])
  }

  /** The rule about databases: the name in front of the first dot is that of the database. */
  lemma CoversExactly(granted: string, wanted: string)
    ensures Covers(granted, wanted) <==>
            || granted == "*" || granted == wanted
            || exists db, table :: '.' !in db && granted == "database:" + db && wanted == "dataset:" + db + "." + table
  {
    if "dataset:" <= wanted && FirstDot(wanted, 8).Some? {
      var dot := FirstDot(wanted, 8).value;
      assert wanted == "dataset:" + wanted[8..dot] + "." + wanted[dot + 1..];
    }
    if db, table :| '.' !in db && granted == "database:" + db && wanted == "dataset:" + db + "." + table {
      DotAfter(db, table);
    }
  }

  lemma DotAfter(db: string, table: string)
    requires '.' !in db
    ensures var wanted := "dataset:" + db + "." + table;
            FirstDot(wanted, 8) == Some(8 + |db|) && wanted[8..8 + |db|] == db && "dataset:" <= wanted
  {
    var wanted := "dataset:" + db + "." + table;
    assert wanted[8 + |db|] == '.' && wanted[8..8 + |db|] == db;
  }

  method IsAuthorized(perms: PermissionSet, cap: string, scope: string) returns (ok: bool)
    ensures ok <==> exists granted :: Granted(perms, cap, granted) && Covers(granted, scope)
  {
    if cap !in perms {
      return false;
    }
    if "*" in perms[cap] {
      assert Granted(perms, cap, "*");
      return true;
    }
    if scope in perms[cap] {
      assert Granted(perms, cap, scope);
      return true;
    }
    if "dataset:" <= scope {
      var dot := FirstDot(scope, 8);
      if dot.Some? {
        var dbScope := "database:" + scope[8..dot.value];
        if dbScope in perms[cap] {
          assert Granted(perms, cap, dbScope);
          return true;
        }
      }
    }
    return false;
  }
}
