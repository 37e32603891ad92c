/** The user entity and the users table. */
module Accounts {
  import opened Base

  /** A bcrypt digest, symbolically: it verifies exactly the password it was made from. */
  datatype Digest = Bcrypt(plain: string, salt: nat)

  /** bcrypt refuses to hash more than 72 bytes. */
  predicate Hashable(plain: string) { |plain| <= 72 }

  const ROLE_ADMIN := 1

  datatype User = User(
    id: string,
    username: string,
    email: string,
    password: Digest,
    active: bool,
    roleId: int,
    createdAt: Time,
    updatedAt: Option<Time>,
    passwordChangedAt: Option<Time>)
  {
    predicate VerifyPassword(plain: string) { password.plain == plain }

    predicate IsAdmin() { roleId == ROLE_ADMIN }

    /** New digest plus the revocation cutoff; the caller has excluded the empty password. */
    function ChangePassword(plain: string, salt: nat, now: Time): User {
      this.(password := Bcrypt(plain, salt), passwordChangedAt := Some(now), updatedAt := Some(now))
    }
  }

  predicate IsSpace(c: char) { c == ' ' || '\t' <= c <= '\r' }

  function LowerChar(c: char): char {
    if 'A' <= c <= 'Z' then (c as int + 32) as char else c
  }

  function Lower(s: string): (r: string)
    ensures |r| == |s|
    ensures forall i | 0 <= i < |s| :: !('A' <= r[i] <= 'Z')
    ensures forall i | 0 <= i < |s| :: r[i] == s[i] || ('A' <= s[i] <= 'Z' && r[i] as int == s[i] as int + 32)
  {
    seq(|s|, i requires 0 <= i < |s| => LowerChar(s[i]))
  }

  function TrimLeft(s: string): (r: string)
    ensures r == [] || !IsSpace(r[0])
    ensures s == [] || !IsSpace(s[0]) ==> r == s
    ensures r != [] ==> s != [] && r[|r| - 1] == s[|s| - 1]
  {
    if s == [] || !IsSpace(s[0]) then s else TrimLeft(s[1..])
  }

  function TrimRight(s: string): (r: string)
    ensures r == [] || !IsSpace(r[|r| - 1])
    ensures s == [] || !IsSpace(s[|s| - 1]) ==> r == s
    ensures r != [] ==> s != [] && r[0] == s[0]
  {
    if s == [] || !IsSpace(s[|s| - 1]) then s else TrimRight(s[..|s| - 1])
  }

  function TrimSpace(s: string): (r: string)
    ensures r == [] || (!IsSpace(r[0]) && !IsSpace(r[|r| - 1]))
    ensures s == [] || (!IsSpace(s[0]) && !IsSpace(s[|s| - 1])) ==> r == s
  {
    TrimRight(TrimLeft(s))
  }

  function NormalizeEmail(s: string): string { Lower(TrimSpace(s)) }

  /** Normalizing twice is normalizing once, so a stored address is its own lookup key. */
  lemma NormalizeEmailIdempotent(s: string)
    ensures NormalizeEmail(NormalizeEmail(s)) == NormalizeEmail(s)
  {
    var t := TrimSpace(s);
    var n := Lower(t);
    assert TrimSpace(n) == n;
    assert Lower(n) == n;
  }

  /** The same characters but for ASCII case. */
  predicate SameButCase(a: string, b: string) {
    |a| == |b| && forall i | 0 <= i < |a| :: LowerChar(a[i]) == LowerChar(b[i])
  }

  predicate Blank(s: string) { forall i | 0 <= i < |s| :: IsSpace(s[i]) }

  lemma {:induction false} TrimPadded(a: string, s: string, b: string)
    requires Blank(a) && Blank(b) && s != "" && !IsSpace(s[0]) && !IsSpace(s[|s| - 1])
    ensures TrimSpace(a + s + b) == s
  {
    hide TrimLeft, TrimRight;
    assert a + s + b == a + (s + b);
    LeadingBlank(a, s + b);
    TrailingBlank(s, b);
  }

  lemma {:induction false} LeadingBlank(a: string, s: string)
    requires Blank(a) && s != "" && !IsSpace(s[0])
    ensures TrimLeft(a + s) == s
  {
    if a == "" { assert a + s == s; } else { LeadingBlank(a[1..], s); assert (a + s)[1..] == a[1..] + s; }
  }

  lemma {:induction false} TrailingBlank(s: string, b: string)
    requires Blank(b) && s != "" && !IsSpace(s[|s| - 1])
    ensures TrimRight(s + b) == s
  {
    if b == "" {
      assert s + b == s;
    } else {
      TrailingBlank(s, b[..|b| - 1]);
      assert (s + b)[..|s + b| - 1] == s + b[..|b| - 1];
    }
  }

  /** Two spellings of an address that differ in case and surrounding space alone are one address. */
  lemma SpellingsMeet(a: string, s: string, b: string, a': string, s': string, b': string)
    requires Blank(a) && Blank(b) && Blank(a') && Blank(b') && SameButCase(s, s')
    requires s != "" && !IsSpace(s[0]) && !IsSpace(s[|s| - 1]) && !IsSpace(s'[0]) && !IsSpace(s'[|s'| - 1])
    ensures NormalizeEmail(a + s + b) == NormalizeEmail(a' + s' + b')
  {
    TrimPadded(a, s, b);
    TrimPadded(a', s', b');
    assert Lower(s) == Lower(s');
  }

  /** The users table, by primary key. */
  type Rows = map<string, User>

  /** What the schema enforces: keys match and no two rows share an address. */
  ghost predicate RowsOk(rows: Rows) {
    && (forall id | id in rows :: rows[id].id == id && rows[id].email != "")
    && (forall a, b | a in rows && b in rows && rows[a].email == rows[b].email :: a == b)
  }

  /** What the only insert path adds: every stored address is its own normal form. */
  ghost predicate NormalRows(rows: Rows) {
    forall id | id in rows :: NormalizeEmail(rows[id].email) == rows[id].email
  }

  /** SELECT by address. */
  ghost function FindByEmail(rows: Rows, email: string): (r: Option<User>)
    ensures r.Some? ==> exists id :: id in rows && rows[id] == r.value && r.value.email == email
    ensures r.None? ==> forall id | id in rows :: rows[id].email != email
  {
    if exists id :: id in rows && rows[id].email == email then
      var id :| id in rows && rows[id].email == email;
      Some(rows[id])
    else None
  }

  /** In a well-formed table the address determines the row. */
  lemma FindByEmailUnique(rows: Rows, id: string)
    requires RowsOk(rows) && id in rows
    ensures FindByEmail(rows, rows[id].email) == Some(rows[id])
  {
  }

  /** UPDATE ... SET password, password_changed_at, updated_at WHERE id: three columns and no more. */
  function WritePassword(rows: Rows, u: User): Rows {
    if u.id in rows then
      rows[u.id := rows[u.id].(password := u.password, passwordChangedAt := u.passwordChangedAt, updatedAt := u.updatedAt)]
    else rows
  }

  /** UPDATE ... SET active, updated_at WHERE id: two columns and no more. */
  function WriteActive(rows: Rows, id: string, now: Time): Rows {
    if id in rows then rows[id := rows[id].(active := true, updatedAt := Some(now))] else rows
  }

  /** Rows keep their identity and address, and none disappears. */
  ghost predicate RowsExtend(rows: Rows, later: Rows) {
    RowsOk(later) && forall id | id in rows :: id in later && later[id].email == rows[id].email
  }

  lemma ReplaceKeepsRows(rows: Rows, id: string, u: User)
    requires RowsOk(rows) && id in rows && u.id == id && u.email == rows[id].email
    ensures RowsExtend(rows, rows[id := u])
  {
  }

  lemma WritesKeepRowsOk(rows: Rows, u: User, now: Time)
    requires RowsOk(rows)
    ensures RowsExtend(rows, WritePassword(rows, u))
    ensures RowsExtend(rows, WriteActive(rows, u.id, now))
  {
    if u.id in rows {
      ReplaceKeepsRows(rows, u.id, WritePassword(rows, u)[u.id]);
      ReplaceKeepsRows(rows, u.id, WriteActive(rows, u.id, now)[u.id]);
    }
  }

  /** A password write and an activation keep each other's columns in either order: afterwards the account is active
      with the new password, and everything but the time of the update is as it was. */
  lemma WritesMeet(rows: Rows, u: User, now: Time)
    requires RowsOk(rows) && u.id in rows
    ensures var one := WriteActive(WritePassword(rows, u), u.id, now);
            var two := WritePassword(WriteActive(rows, u.id, now), u);
            && one.Keys == two.Keys == rows.Keys
            && one[u.id].(updatedAt := None) == two[u.id].(updatedAt := None)
            && one[u.id].active && one[u.id].password == u.password && one[u.id].passwordChangedAt == u.passwordChangedAt
            && one[u.id].updatedAt == Some(now) && two[u.id].updatedAt == u.updatedAt
            && (one[u.id].id, one[u.id].username, one[u.id].email, one[u.id].roleId, one[u.id].createdAt)
                 == (rows[u.id].id, rows[u.id].username, rows[u.id].email, rows[u.id].roleId, rows[u.id].createdAt)
            && forall id | id in rows && id != u.id :: one[id] == two[id] == rows[id]
  {
  }
}
