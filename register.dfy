/**
 * `register`: the guard chain (invitation code, e-mail shape, password length, unused e-mail)
 * and the insert into the `users` table. The bcrypt hash of the password is an input.
 */
module Register {
  import opened Wrappers
  import opened Text

  datatype RegisterRequest = RegisterRequest(
    email: string, password: string, firstName: string, lastName: string, invitationCode: string)

  datatype RegisterResponse = RegisterResponse(userId: string, email: string, firstName: string, lastName: string)

  const InvitationCode := "MYX223#$1"
  const MinPasswordLength := 8

  // ---------------------------------------------------------------------------------------------
  // The e-mail pattern /^[^\s@]+@[^\s@]+\.[^\s@]+$/

  /** A character of the class `[^\s@]`. */
  predicate Plain(c: char) {
    !IsJsSpace(c) && c != '@'
  }

  /** A non-empty run of `[^\s@]`, the three parts of the pattern. */
  predicate PlainRun(s: string) {
    |s| > 0 && forall k :: 0 <= k < |s| ==> Plain(s[k])
  }

  /** What the pattern matches: a plain run, '@', a plain run, '.', a plain run, and nothing else. */
  ghost predicate MatchesEmailPattern(s: string) {
    exists at, dot :: 0 <= at < dot < |s| && s[at] == '@' && s[dot] == '.'
      && PlainRun(s[..at]) && PlainRun(s[at + 1..dot]) && PlainRun(s[dot + 1..])
  }

  /** The first position of `c` in `s`, if any. */
  function IndexOf(s: string, c: char): (i: Option<nat>)
    ensures i.Some? ==> i.value < |s| && s[i.value] == c && c !in s[..i.value]
    ensures i.None? ==> c !in s
  {
    if |s| == 0 then None
    else if s[0] == c then Some(0)
    else match IndexOf(s[1..], c)
      case None => None
      case Some(i) =>
        assert s[..i + 1] == [s[0]] + s[1..][..i];
        Some(i + 1)
  }

  /** The check `register` runs: no white space, one '@' after a non-empty name, and a '.' strictly inside the domain. */
  function EmailOk(s: string): (ok: bool)
  {
    if exists k :: 0 <= k < |s| && IsJsSpace(s[k]) then false
    else match IndexOf(s, '@')
      case None => false
      case Some(at) =>
        var domain := s[at + 1..];
        at > 0 && '@' !in domain && |domain| >= 3 && '.' in domain[1..|domain| - 1]
  }

  /** The check accepts exactly the strings the pattern matches. */
  lemma EmailOkMatchesPattern(s: string)
    ensures EmailOk(s) <==> MatchesEmailPattern(s)
  {
    if EmailOk(s) {
      EmailOkSound(s);
    }
    if MatchesEmailPattern(s) {
      var at, dot :| 0 <= at < dot < |s| && s[at] == '@' && s[dot] == '.'
        && PlainRun(s[..at]) && PlainRun(s[at + 1..dot]) && PlainRun(s[dot + 1..]);
      EmailOkComplete(s, at, dot);
    }
  }

  lemma EmailOkSound(s: string)
    requires EmailOk(s)
    ensures MatchesEmailPattern(s)
  {
    var at := IndexOf(s, '@').value;
    var domain := s[at + 1..];
    var inner := domain[1..|domain| - 1];
    var j :| 0 <= j < |inner| && inner[j] == '.';
    var dot := at + 2 + j;
    assert s[dot] == '.';
    assert forall k :: 0 <= k < at ==> s[..at][k] == s[k] && s[k] != '@';
    assert forall k :: at + 1 <= k < |s| ==> s[k] == domain[k - at - 1];
    assert PlainRun(s[..at]);
    assert PlainRun(s[at + 1..dot]);
    assert PlainRun(s[dot + 1..]);
  }

  lemma EmailOkComplete(s: string, at: nat, dot: nat)
    requires at < dot < |s| && s[at] == '@' && s[dot] == '.'
    requires PlainRun(s[..at]) && PlainRun(s[at + 1..dot]) && PlainRun(s[dot + 1..])
    ensures EmailOk(s)
  {
    forall k | 0 <= k < |s| ensures !IsJsSpace(s[k]) && (k != at ==> s[k] != '@') {
      if k < at { assert s[..at][k] == s[k]; }
      else if at < k < dot { assert s[at + 1..dot][k - at - 1] == s[k]; }
      else if dot < k { assert s[dot + 1..][k - dot - 1] == s[k]; }
    }
    assert '@' !in s[..at];
    assert IndexOf(s, '@') == Some(at);
    var domain := s[at + 1..];
    assert domain[1..|domain| - 1][dot - at - 2] == '.';
    assert '@' !in domain by {
      forall k | 0 <= k < |domain| ensures domain[k] != '@' { assert domain[k] == s[at + 1 + k]; }
    }
  }

  // ---------------------------------------------------------------------------------------------
  // The guard chain

  /** The first check the request fails, in the order `register` makes them, or Pass. */
  function CheckRequest(req: RegisterRequest, emailTaken: bool): (r: Outcome)
    ensures req.invitationCode != InvitationCode ==> r == Fail(InvalidArgument("Invalid invitation code"))
    ensures req.invitationCode == InvitationCode && !EmailOk(req.email) ==>
              r == Fail(InvalidArgument("Invalid email format"))
    ensures req.invitationCode == InvitationCode && EmailOk(req.email) && Utf16Length(req.password) < MinPasswordLength ==>
              r == Fail(InvalidArgument("Password must be at least 8 characters long"))
    ensures r.Pass? <==> req.invitationCode == InvitationCode && EmailOk(req.email)
                         && Utf16Length(req.password) >= MinPasswordLength && !emailTaken
    ensures r.Fail? && emailTaken && req.invitationCode == InvitationCode && EmailOk(req.email)
            && Utf16Length(req.password) >= MinPasswordLength ==>
              r == Fail(AlreadyExists("User with this email already exists"))
  {
    if req.invitationCode != InvitationCode then Fail(InvalidArgument("Invalid invitation code"))
    else if !EmailOk(req.email) then Fail(InvalidArgument("Invalid email format"))
    else if Utf16Length(req.password) < MinPasswordLength then
      Fail(InvalidArgument("Password must be at least 8 characters long"))
    else if emailTaken then Fail(AlreadyExists("User with this email already exists"))
    else Pass
  }

  /** A password of exactly eight characters of the Basic Multilingual Plane passes the length check. */
  lemma EightCharactersSuffice(req: RegisterRequest)
    requires req.invitationCode == InvitationCode && EmailOk(req.email)
    requires |req.password| == 8 && forall k :: 0 <= k < 8 ==> req.password[k] as int <= 0xFFFF
    ensures CheckRequest(req, false) == Pass
  {
    BmpLength(req.password);
  }

  lemma {:induction false} BmpLength(s: string)
    requires forall k :: 0 <= k < |s| ==> s[k] as int <= 0xFFFF
    ensures Utf16Length(s) == |s|
  {
    if |s| > 0 {
      BmpLength(s[1..]);
    }
  }

  // ---------------------------------------------------------------------------------------------
  // The users table

  datatype UserRow = UserRow(id: nat, email: string, passwordHash: string, firstName: string, lastName: string)

  predicate EmailTaken(rows: seq<UserRow>, email: string) {
    exists k :: 0 <= k < |rows| && rows[k].email == email
  }

  /** The UNIQUE e-mail column and the primary key. */
  ghost predicate UsersKeyed(rows: seq<UserRow>, nextId: nat) {
    && (forall i :: 0 <= i < |rows| ==> rows[i].id < nextId)
    && (forall i, j :: 0 <= i < j < |rows| ==> rows[i].email != rows[j].email && rows[i].id != rows[j].id)
  }

  /** The response echoes the inserted row; its id is sent as a decimal string. */
  function ResponseOf(row: UserRow): (r: RegisterResponse)
    ensures r.email == row.email && r.firstName == row.firstName && r.lastName == row.lastName
    ensures ParseInt(r.userId) == Some(row.id as int)
  {
    ParseIntDecimal(row.id);
    RegisterResponse(DecimalString(row.id), row.email, row.firstName, row.lastName)
  }

  class UserTable {
    var rows: seq<UserRow>
    /** The next value of the id sequence. */
    var nextId: nat

    ghost predicate Valid()
      reads this
    {
      UsersKeyed(rows, nextId)
    }

    constructor ()
      ensures Valid() && rows == [] && nextId == 1
    {
      rows := [];
      nextId := 1;
    }

    /** `register`: the guards, then one new row whose id the response carries. */
    method Register(req: RegisterRequest, passwordHash: string) returns (r: Result<RegisterResponse>)
      requires Valid()
      modifies this
      ensures Valid()
      ensures var check := CheckRequest(req, EmailTaken(old(rows), req.email));
              && (check.Fail? ==> r == Err(check.error) && rows == old(rows) && nextId == old(nextId))
              && (check.Pass? ==>
                    && rows == old(rows) + [UserRow(old(nextId), req.email, passwordHash, req.firstName, req.lastName)]
                    && nextId == old(nextId) + 1
                    && r == Ok(ResponseOf(rows[|rows| - 1])))
    {
      var check := CheckRequest(req, EmailTaken(rows, req.email));
      if check.Fail? {
        return Err(check.error);
      }
      var row := UserRow(nextId, req.email, passwordHash, req.firstName, req.lastName);
      rows := rows + [row];
      nextId := nextId + 1;
      r := Ok(ResponseOf(row));
    }
  }
}
