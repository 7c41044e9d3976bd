/** The user-role service (src/api_usr_role/server.go): a collection of role
    documents keyed by object id, with soft-delete, one unfiltered listing and
    fixture seeding of four locked roles. */
module RoleService {
  import opened Common
  import opened ObjectIds

  /** A stored document: the UserRole record plus deleted_at, which only the
      delete handler's $set adds. */
  datatype RoleDoc = RoleDoc(
    name: string,
    description: string,
    appHandle: string,
    appIcon: string,
    appColorHex: string,
    isLocked: bool,
    isDeleted: bool,
    isFixture: bool,
    createdAt: Timestamp,
    updatedAt: Timestamp,
    deletedAt: Option<Timestamp>)

  /** The UserRole wire message, used for requests and responses alike.
      An unset field reads as "", false or None. */
  datatype RoleMsg = RoleMsg(
    id: string,
    name: string,
    description: string,
    appHandle: string,
    appIcon: string,
    appColorHex: string,
    createdAt: Option<Timestamp>,
    updatedAt: Option<Timestamp>,
    isLocked: bool,
    isDeleted: bool,
    isFixture: bool)

  const EmptyMsg := RoleMsg("", "", "", "", "", "", None, None, false, false, false)

  /** Every query of the get, update, delete and list handlers carries is_deleted = false. */
  predicate Visible(d: RoleDoc) {
    !d.isDeleted
  }

  // ---------------------------------------------------------------------------
  // Request translation and response mapping
  // ---------------------------------------------------------------------------

  /** The record CreateRole inserts: descriptive fields and the three flags
      copied, created_at set to now, updated_at left at Go's zero time. */
  function NewRoleDoc(req: RoleMsg, now: Timestamp): (d: RoleDoc)
    ensures d.name == req.name && d.description == req.description && d.appHandle == req.appHandle
    ensures d.appIcon == req.appIcon && d.appColorHex == req.appColorHex
    ensures d.isLocked == req.isLocked && d.isDeleted == req.isDeleted && d.isFixture == req.isFixture
    ensures d.createdAt == now && d.updatedAt == GoZeroTime && d.deletedAt.None?
    ensures Visible(d) <==> !req.isDeleted
  {
    RoleDoc(req.name, req.description, req.appHandle, req.appIcon, req.appColorHex,
            req.isLocked, req.isDeleted, req.isFixture, now, GoZeroTime, None)
  }

  /** The response body of GetRole for the document stored under oid: the
      id's text, the five descriptive fields, both times, is_fixture and
      is_locked; the deletion state is not sent. */
  function GetResponse(oid: ObjectId, d: RoleDoc): (m: RoleMsg)
    ensures ParseHex(m.id) == Some(oid)
    ensures m.name == d.name && m.description == d.description && m.appHandle == d.appHandle
    ensures m.appIcon == d.appIcon && m.appColorHex == d.appColorHex
    ensures Shows(m.createdAt, d.createdAt) && Shows(m.updatedAt, d.updatedAt)
    ensures m.isFixture == d.isFixture && m.isLocked == d.isLocked && !m.isDeleted
  {
    ParseHexOfHex(oid);
    EmptyMsg.(id := Hex(oid), name := d.name, description := d.description,
              appHandle := d.appHandle, appColorHex := d.appColorHex, appIcon := d.appIcon,
              createdAt := ToProto(d.createdAt), updatedAt := ToProto(d.updatedAt),
              isFixture := d.isFixture, isLocked := d.isLocked)
  }

  /** The $set of DeleteRole: the role is hidden but kept, with only the two
      deletion fields changed. */
  function SoftDeleted(d: RoleDoc, now: Timestamp): (r: RoleDoc)
    ensures !Visible(r) && r.deletedAt == Some(now)
    ensures r.(isDeleted := d.isDeleted, deletedAt := d.deletedAt) == d
  {
    d.(isDeleted := true, deletedAt := Some(now))
  }

  /** The $set of UpdateRole: the five descriptive fields and updated_at
      change; the flags, created_at and deleted_at stay, locked or not. */
  function UpdatedDoc(d: RoleDoc, req: RoleMsg, now: Timestamp): (r: RoleDoc)
    ensures r.name == req.name && r.description == req.description && r.appHandle == req.appHandle
    ensures r.appIcon == req.appIcon && r.appColorHex == req.appColorHex && r.updatedAt == now
    ensures r.isDeleted == d.isDeleted && r.isLocked == d.isLocked && r.isFixture == d.isFixture
    ensures r.createdAt == d.createdAt && r.deletedAt == d.deletedAt
    ensures Visible(r) <==> Visible(d)
  {
    d.(name := req.name, description := req.description, appHandle := req.appHandle,
       appIcon := req.appIcon, appColorHex := req.appColorHex, updatedAt := now)
  }

  /** The response body of UpdateRole, built from the document after the
      update: the id's text, the five descriptive fields and updated_at only. */
  function UpdateResponse(oid: ObjectId, d: RoleDoc): (m: RoleMsg)
    ensures ParseHex(m.id) == Some(oid)
    ensures m.name == d.name && m.description == d.description && m.appHandle == d.appHandle
    ensures m.appIcon == d.appIcon && m.appColorHex == d.appColorHex
    ensures Shows(m.updatedAt, d.updatedAt) && m.createdAt.None?
    ensures !m.isFixture && !m.isLocked && !m.isDeleted
  {
    ParseHexOfHex(oid);
    EmptyMsg.(id := Hex(oid), name := d.name, description := d.description,
              appHandle := d.appHandle, appIcon := d.appIcon, appColorHex := d.appColorHex,
              updatedAt := ToProto(d.updatedAt))
  }

  /** One message of the ListRoles stream: the id's text, the five
      descriptive fields and both times; no flags. */
  function ListedRole(oid: ObjectId, d: RoleDoc): (m: RoleMsg)
    ensures ParseHex(m.id) == Some(oid)
    ensures m.name == d.name && m.description == d.description && m.appHandle == d.appHandle
    ensures m.appIcon == d.appIcon && m.appColorHex == d.appColorHex
    ensures Shows(m.createdAt, d.createdAt) && Shows(m.updatedAt, d.updatedAt)
    ensures !m.isFixture && !m.isLocked && !m.isDeleted
  {
    ParseHexOfHex(oid);
    EmptyMsg.(id := Hex(oid), name := d.name, description := d.description,
              appHandle := d.appHandle, appIcon := d.appIcon, appColorHex := d.appColorHex,
              createdAt := ToProto(d.createdAt), updatedAt := ToProto(d.updatedAt))
  }

  /** A freshly created role is seen by GetRole with the caller's descriptive
      fields and flags, the server's creation time and Go's zero time as its
      update time, unless the caller created it already deleted. */
  lemma CreateThenGet(req: RoleMsg, now: Timestamp, oid: ObjectId)
    ensures Visible(NewRoleDoc(req, now)) <==> !req.isDeleted
    ensures var m := GetResponse(oid, NewRoleDoc(req, now));
      && ParseHex(m.id) == Some(oid)
      && m.name == req.name && m.description == req.description && m.appHandle == req.appHandle
      && m.appIcon == req.appIcon && m.appColorHex == req.appColorHex
      && m.isFixture == req.isFixture && m.isLocked == req.isLocked
      && m.createdAt == ToProto(now) && m.updatedAt == Some(GoZeroTime)
    ensures InProtoRange(now) ==> GetResponse(oid, NewRoleDoc(req, now)).createdAt == Some(now)
  {
    ParseHexOfHex(oid);
    ProtoRangeEdges();
  }

  /** The update response and a later get both show the values just written. */
  lemma UpdateThenGet(oid: ObjectId, d: RoleDoc, req: RoleMsg, now: Timestamp)
    ensures var m := UpdateResponse(oid, UpdatedDoc(d, req, now));
      && m.name == req.name && m.description == req.description && m.appHandle == req.appHandle
      && m.appIcon == req.appIcon && m.appColorHex == req.appColorHex && m.updatedAt == ToProto(now)
    ensures var g := GetResponse(oid, UpdatedDoc(d, req, now));
      && g.name == req.name && g.description == req.description && g.appHandle == req.appHandle
      && g.appIcon == req.appIcon && g.appColorHex == req.appColorHex
      && g.createdAt == ToProto(d.createdAt) && g.updatedAt == ToProto(now) && g.isLocked == d.isLocked
    ensures InProtoRange(now) ==> UpdateResponse(oid, UpdatedDoc(d, req, now)).updatedAt == Some(now)
  {
  }

  // ---------------------------------------------------------------------------
  // Fixtures
  // ---------------------------------------------------------------------------

  /** The arguments of one _genUserRole call. */
  datatype FixtureRole = FixtureRole(name: string, handle: string, icon: string, colorHex: string)

  /** The four roles mongoDbFixtureLoadUserRoles inserts, in order. */
  const FixtureRoles: seq<FixtureRole> := [
    FixtureRole("ROLE_ADMIN", "admin", "security", "#CB212D"),
    FixtureRole("ROLE_DIRECTOR", "director", "verified_user", "#77A548"),
    FixtureRole("ROLE_TEACHER", "teacher", "school", "#38557D"),
    FixtureRole("ROLE_VIEWER", "viewer", "check", "#F5AE3B")
  ]

  function FixtureDescription(name: string, handle: string): string {
    "auto-generated role [" + name + "] using handle [" + handle + "]"
  }

  /** What the environment provides for one _genUserRole call: the id the
      store assigns, the current time, and whether the store refuses the insert. */
  datatype FixtureDraw = FixtureDraw(id: ObjectId, now: Timestamp, fails: bool)

  /** The record _genUserRole inserts: a visible, locked fixture carrying the
      fixture's name, handle, icon and colour, described by its name and
      handle, created and updated at the given time. */
  function FixtureDoc(role: FixtureRole, now: Timestamp): (d: RoleDoc)
    ensures d.isFixture && d.isLocked && Visible(d) && d.deletedAt.None?
    ensures d.name == role.name && d.appHandle == role.handle
    ensures d.appIcon == role.icon && d.appColorHex == role.colorHex
    ensures d.description == "auto-generated role [" + role.name + "] using handle [" + role.handle + "]"
    ensures d.createdAt == now && d.updatedAt == now
  {
    RoleDoc(role.name, FixtureDescription(role.name, role.handle), role.handle, role.icon, role.colorHex,
            true, false, true, now, now, None)
  }

  /** Each fixture role is a visible, locked fixture described by its name and handle. */
  lemma FixtureDocShape(k: nat, now: Timestamp)
    requires k < |FixtureRoles|
    ensures var d := FixtureDoc(FixtureRoles[k], now);
      && d.isFixture && d.isLocked && Visible(d)
      && d.description == "auto-generated role [" + d.name + "] using handle [" + d.appHandle + "]"
      && d.createdAt == now && d.updatedAt == now
    ensures FixtureDoc(FixtureRoles[k], now).name ==
      ["ROLE_ADMIN", "ROLE_DIRECTOR", "ROLE_TEACHER", "ROLE_VIEWER"][k]
    ensures FixtureDoc(FixtureRoles[k], now).appColorHex == ["#CB212D", "#77A548", "#38557D", "#F5AE3B"][k]
  {
  }

  /** The insert of draw k is accepted: no store failure and an id not taken
      by an earlier fixture (the collection is empty after the clean). */
  predicate Accepted(draws: seq<FixtureDraw>, k: nat)
    requires k < |draws|
  {
    !draws[k].fails && forall j | 0 <= j < k :: draws[j].id != draws[k].id
  }

  predicate AllAccepted(draws: seq<FixtureDraw>, n: nat)
    requires n <= |draws|
  {
    forall k | 0 <= k < n :: Accepted(draws, k)
  }

  /** The collection after the first n fixture inserts, starting from empty. */
  function Seeded(roles: seq<FixtureRole>, draws: seq<FixtureDraw>, n: nat): map<ObjectId, RoleDoc>
    requires n <= |draws| && n <= |roles|
  {
    if n == 0 then map[]
    else Seeded(roles, draws, n - 1)[draws[n - 1].id := FixtureDoc(roles[n - 1], draws[n - 1].now)]
  }

  /** After n accepted inserts the collection holds exactly the first n
      fixture roles, each under its own id. */
  lemma {:induction false} SeededContents(roles: seq<FixtureRole>, draws: seq<FixtureDraw>, n: nat)
    requires n <= |roles| && n <= |draws| && AllAccepted(draws, n)
    ensures Seeded(roles, draws, n).Keys == DrawIds(draws, n)
    ensures |Seeded(roles, draws, n)| == n
    ensures forall k | 0 <= k < n :: Seeded(roles, draws, n)[draws[k].id] == FixtureDoc(roles[k], draws[k].now)
  {
    SeededKeys(roles, draws, n);
    forall k | 0 <= k < n ensures Seeded(roles, draws, n)[draws[k].id] == FixtureDoc(roles[k], draws[k].now) {
      SeededValue(roles, draws, n, k);
    }
  }

  lemma {:induction false} SeededKeys(roles: seq<FixtureRole>, draws: seq<FixtureDraw>, n: nat)
    requires n <= |roles| && n <= |draws| && AllAccepted(draws, n)
    ensures Seeded(roles, draws, n).Keys == DrawIds(draws, n)
    ensures |Seeded(roles, draws, n)| == n
  {
    if n > 0 {
      AcceptedPrefix(draws, n);
      SeededKeys(roles, draws, n - 1);
      DrawIdsStep(draws, n);
      assert Accepted(draws, n - 1);
      FreshId(draws, n - 1);
    }
  }

  /** The ids of the first n draws. */
  function DrawIds(draws: seq<FixtureDraw>, n: nat): set<ObjectId>
    requires n <= |draws|
  {
    set k | 0 <= k < n :: draws[k].id
  }

  lemma DrawIdsStep(draws: seq<FixtureDraw>, n: nat)
    requires 0 < n <= |draws|
    ensures DrawIds(draws, n) == DrawIds(draws, n - 1) + {draws[n - 1].id}
  {
    assert draws[n - 1].id in DrawIds(draws, n);
  }

  lemma AcceptedPrefix(draws: seq<FixtureDraw>, n: nat)
    requires 0 < n <= |draws| && AllAccepted(draws, n)
    ensures AllAccepted(draws, n - 1) && Accepted(draws, n - 1)
  {
  }

  /** An accepted draw's id is not among the earlier ones. */
  lemma FreshId(draws: seq<FixtureDraw>, n: nat)
    requires n < |draws| && Accepted(draws, n)
    ensures draws[n].id !in DrawIds(draws, n)
  {
  }

  lemma {:induction false} SeededValue(roles: seq<FixtureRole>, draws: seq<FixtureDraw>, n: nat, k: nat)
    requires n <= |roles| && n <= |draws| && AllAccepted(draws, n) && k < n
    ensures draws[k].id in Seeded(roles, draws, n)
    ensures Seeded(roles, draws, n)[draws[k].id] == FixtureDoc(roles[k], draws[k].now)
  {
    if k < n - 1 {
      assert AllAccepted(draws, n - 1);
      SeededValue(roles, draws, n - 1, k);
      assert Accepted(draws, n - 1);
      assert draws[k].id != draws[n - 1].id;
    }
  }

  /** On the empty collection fixture n is inserted exactly when it is accepted. */
  lemma SeededFreshness(roles: seq<FixtureRole>, draws: seq<FixtureDraw>, n: nat)
    requires n < |draws| && n < |roles| && AllAccepted(draws, n)
    ensures (!draws[n].fails && draws[n].id !in Seeded(roles, draws, n)) <==> Accepted(draws, n)
  {
    SeededContents(roles, draws, n);
    if !Accepted(draws, n) && !draws[n].fails {
      var j :| 0 <= j < n && draws[j].id == draws[n].id;
      assert draws[j].id in Seeded(roles, draws, n);
    }
  }

  /** After n accepted inserts every stored role is a visible, locked
      fixture, and the stored names are those of the first n fixture roles. */
  lemma SeededRoles(roles: seq<FixtureRole>, draws: seq<FixtureDraw>, n: nat)
    requires n <= |draws| && n <= |roles| && AllAccepted(draws, n)
    ensures var s := Seeded(roles, draws, n);
      && |s| == n
      && (forall id | id in s :: s[id].isLocked && s[id].isFixture && Visible(s[id]))
      && (set id | id in s :: s[id].name) == set k | 0 <= k < n :: roles[k].name
  {
    var s := Seeded(roles, draws, n);
    SeededKeys(roles, draws, n);
    forall id | id in s ensures s[id].isLocked && s[id].isFixture && Visible(s[id]) {
      var k := SeededIndex(roles, draws, n, id);
    }
    var names := set id | id in s :: s[id].name;
    var target := set k | 0 <= k < n :: roles[k].name;
    forall x | x in names ensures x in target {
      var id :| id in s && s[id].name == x;
      var k := SeededIndex(roles, draws, n, id);
      assert roles[k].name == x;
    }
    forall k | 0 <= k < n ensures roles[k].name in names {
      SeededValue(roles, draws, n, k);
      assert s[draws[k].id].name == roles[k].name;
    }
  }

  /** The position of the draw a stored fixture role came from. */
  lemma SeededIndex(roles: seq<FixtureRole>, draws: seq<FixtureDraw>, n: nat, id: ObjectId) returns (k: nat)
    requires n <= |draws| && n <= |roles| && AllAccepted(draws, n)
    requires id in Seeded(roles, draws, n)
    ensures k < n && draws[k].id == id && Seeded(roles, draws, n)[id] == FixtureDoc(roles[k], draws[k].now)
  {
    SeededKeys(roles, draws, n);
    assert id in DrawIds(draws, n);
    k :| 0 <= k < n && draws[k].id == id;
    SeededValue(roles, draws, n, k);
  }

  /** The ids a stream sent. */
  function SentIds(sent: seq<RoleMsg>): set<string> {
    set i | 0 <= i < |sent| :: sent[i].id
  }

  // ---------------------------------------------------------------------------
  // The service and its collection
  // ---------------------------------------------------------------------------

  class RoleStore {
    /** The user_roles collection. */
    var docs: map<ObjectId, RoleDoc>

    constructor (initial: map<ObjectId, RoleDoc>)
      ensures docs == initial
    {
      docs := initial;
    }

    /** The ids of the visible roles. */
    function VisibleIds(): (ids: set<ObjectId>)
      reads this
      ensures forall id :: id in ids <==> id in docs && Visible(docs[id])
    {
      set id | id in docs && Visible(docs[id])
    }

    /** CreateRole: one insert under the id the store assigns; an insert the
        store refuses (a store failure, or an id already taken) is Internal and
        adds nothing. No unique index on the name is in place, so a name
        already in use does not make it fail. The response is the request with
        the new id. */
    method CreateRole(req: RoleMsg, now: Timestamp, newId: ObjectId, storeFails: bool)
      returns (r: Result<RoleMsg>)
      modifies this
      ensures r.Ok? <==> !storeFails && newId !in old(docs)
      ensures r.Err? ==> r.code == Internal && docs == old(docs)
      ensures r.Ok? ==> docs == old(docs)[newId := NewRoleDoc(req, now)]
      ensures r.Ok? ==> r.value == req.(id := Hex(newId)) && ParseHex(r.value.id) == Some(newId)
    {
      if storeFails || newId in docs {
        return Err(Internal);
      }
      docs := docs[newId := NewRoleDoc(req, now)];
      ParseHexOfHex(newId);
      r := Ok(req.(id := Hex(newId)));
    }

    /** GetRole: an id that does not parse is InvalidArgument; a missing or
        soft-deleted role, or a failed lookup, is NotFound. */
    method GetRole(id: string, storeFails: bool) returns (r: Result<RoleMsg>)
      ensures ParseHex(id).None? ==> r == Err(InvalidArgument)
      ensures ParseHex(id).Some? ==>
        var oid := ParseHex(id).value;
        if !storeFails && oid in docs && Visible(docs[oid])
        then r == Ok(GetResponse(oid, docs[oid]))
        else r == Err(NotFound)
      ensures r.Ok? ==> ParseHex(r.value.id) == ParseHex(id)
    {
      var parsed := ParseHex(id);
      if parsed.None? {
        return Err(InvalidArgument);
      }
      var oid := parsed.value;
      ParseHexOfHex(oid);
      if !storeFails && oid in docs && !docs[oid].isDeleted {
        r := Ok(GetResponse(oid, docs[oid]));
      } else {
        r := Err(NotFound);
      }
    }

    /** DeleteRole: one atomic find-and-update of a visible role, locked or
        not; anything else is NotFound and changes nothing. */
    method DeleteRole(id: string, now: Timestamp, storeFails: bool) returns (r: Result<bool>)
      modifies this
      ensures ParseHex(id).None? ==> r == Err(InvalidArgument) && docs == old(docs)
      ensures ParseHex(id).Some? ==>
        var oid := ParseHex(id).value;
        if !storeFails && oid in old(docs) && Visible(old(docs)[oid])
        then r == Ok(true) && docs == old(docs)[oid := SoftDeleted(old(docs)[oid], now)]
        else r == Err(NotFound) && docs == old(docs)
    {
      var parsed := ParseHex(id);
      if parsed.None? {
        return Err(InvalidArgument);
      }
      var oid := parsed.value;
      if !storeFails && oid in docs && !docs[oid].isDeleted {
        docs := docs[oid := SoftDeleted(docs[oid], now)];
        r := Ok(true);
      } else {
        r := Err(NotFound);
      }
    }

    /** UpdateRole: one atomic find-and-update of a visible role, locked or
        not, answered from the document as it is after the update. */
    method UpdateRole(req: RoleMsg, now: Timestamp, storeFails: bool) returns (r: Result<RoleMsg>)
      modifies this
      ensures ParseHex(req.id).None? ==> r == Err(InvalidArgument) && docs == old(docs)
      ensures ParseHex(req.id).Some? ==>
        var oid := ParseHex(req.id).value;
        if !storeFails && oid in old(docs) && Visible(old(docs)[oid])
        then docs == old(docs)[oid := UpdatedDoc(old(docs)[oid], req, now)]
             && r == Ok(UpdateResponse(oid, docs[oid]))
        else r == Err(NotFound) && docs == old(docs)
    {
      var parsed := ParseHex(req.id);
      if parsed.None? {
        return Err(InvalidArgument);
      }
      var oid := parsed.value;
      if !storeFails && oid in docs && !docs[oid].isDeleted {
        docs := docs[oid := UpdatedDoc(docs[oid], req, now)];
        r := Ok(UpdateResponse(oid, docs[oid]));
      } else {
        r := Err(NotFound);
      }
    }

    /** ListRoles: every visible role once, in an order the store chooses,
        never a soft-deleted one. */
    method ListRoles(fault: ListFault) returns (sent: seq<RoleMsg>, outcome: Outcome)
      ensures forall i | 0 <= i < |sent| ::
        && ParseHex(sent[i].id).Some? && ParseHex(sent[i].id).value in docs
        && Visible(docs[ParseHex(sent[i].id).value])
        && sent[i] == ListedRole(ParseHex(sent[i].id).value, docs[ParseHex(sent[i].id).value])
      ensures forall i, j | 0 <= i < j < |sent| :: sent[i].id != sent[j].id
      ensures outcome.Pass? ==> SentIds(sent) == set id | id in VisibleIds() :: Hex(id)
      ensures fault.NoFault? ==> outcome.Pass?
      ensures fault.FindFails? ==> sent == [] && outcome == Fail(Internal)
      ensures fault.DecodeFailsAt? ==>
        if fault.k < |VisibleIds()| then |sent| == fault.k && outcome == Fail(Unavailable) else outcome.Pass?
      ensures fault.CursorFailsAt? ==>
        if fault.k <= |VisibleIds()| then |sent| == fault.k && outcome == Fail(Internal) else outcome.Pass?
    {
      if fault.FindFails? {
        return [], Fail(Internal);
      }
      var pending := VisibleIds();
      ghost var all := pending;
      ghost var order: seq<ObjectId> := [];
      sent := [];
      while pending != {}
        invariant all == VisibleIds() && Streamed(sent, order, pending, all)
        invariant fault.DecodeFailsAt? ==> |sent| <= fault.k
        invariant fault.CursorFailsAt? ==> |sent| <= fault.k
        decreases pending
      {
        var id :| id in pending;
        if fault == CursorFailsAt(|sent|) || fault == DecodeFailsAt(|sent|) {
          outcome := if fault.CursorFailsAt? then Fail(Internal) else Fail(Unavailable);
          Finished(sent, order, pending, all, fault, outcome);
          return;
        }
        StreamStep(sent, order, pending, all, id);
        sent := sent + [ListedRole(id, docs[id])];
        order := order + [id];
        pending := pending - {id};
      }
      // cursor.Err() after the last role
      outcome := if fault == CursorFailsAt(|sent|) then Fail(Internal) else Pass;
      Finished(sent, order, pending, all, fault, outcome);
    }

    /** How a listing ends: at a decode fault while roles are still pending,
        at a cursor error before any position up to the last, or with every
        visible role sent. */
    lemma Finished(sent: seq<RoleMsg>, order: seq<ObjectId>, pending: set<ObjectId>, all: set<ObjectId>,
                   fault: ListFault, outcome: Outcome)
      requires all == VisibleIds() && Streamed(sent, order, pending, all)
      requires !fault.FindFails?
      requires fault.DecodeFailsAt? ==> |sent| <= fault.k
      requires fault.CursorFailsAt? ==> |sent| <= fault.k
      requires outcome.Pass? ==> pending == {} && fault != CursorFailsAt(|sent|)
      requires outcome.Fail? ==> fault == CursorFailsAt(|sent|) || (pending != {} && fault == DecodeFailsAt(|sent|))
      requires outcome.Fail? ==> outcome.code == if fault.CursorFailsAt? then Internal else Unavailable
      ensures forall i | 0 <= i < |sent| ::
        && ParseHex(sent[i].id).Some? && ParseHex(sent[i].id).value in docs
        && Visible(docs[ParseHex(sent[i].id).value])
        && sent[i] == ListedRole(ParseHex(sent[i].id).value, docs[ParseHex(sent[i].id).value])
      ensures forall i, j | 0 <= i < j < |sent| :: sent[i].id != sent[j].id
      ensures outcome.Pass? ==> SentIds(sent) == set id | id in VisibleIds() :: Hex(id)
      ensures fault.NoFault? ==> outcome.Pass?
      ensures fault.DecodeFailsAt? ==>
        if fault.k < |VisibleIds()| then |sent| == fault.k && outcome == Fail(Unavailable) else outcome.Pass?
      ensures fault.CursorFailsAt? ==>
        if fault.k <= |VisibleIds()| then |sent| == fault.k && outcome == Fail(Internal) else outcome.Pass?
    {
      StreamedDistinct(sent, order, pending, all);
      if outcome.Pass? {
        ListedAll(sent, order, all);
      }
    }

    /** The state of a listing: sent shows the distinct visible ids of order,
        each taken out of pending, and every visible id is pending or sent. */
    ghost predicate Streamed(sent: seq<RoleMsg>, order: seq<ObjectId>, pending: set<ObjectId>, all: set<ObjectId>)
      reads this
    {
      && pending <= all
      && |order| == |sent| && |sent| + |pending| == |all|
      && (forall i | 0 <= i < |order| :: order[i] in all && order[i] !in pending)
      && (forall i | 0 <= i < |order| :: order[i] in docs && sent[i] == ListedRole(order[i], docs[order[i]]))
      && (forall i, j | 0 <= i < j < |order| :: order[i] != order[j])
      && (forall id | id in all :: id in pending || id in order)
    }

    /** Sending one pending visible role keeps the listing state. */
    lemma StreamStep(sent: seq<RoleMsg>, order: seq<ObjectId>, pending: set<ObjectId>, all: set<ObjectId>, id: ObjectId)
      requires Streamed(sent, order, pending, all) && id in pending && id in docs
      ensures Streamed(sent + [ListedRole(id, docs[id])], order + [id], pending - {id}, all)
    {
      assert |pending - {id}| == |pending| - 1;
    }

    lemma StreamedDistinct(sent: seq<RoleMsg>, order: seq<ObjectId>, pending: set<ObjectId>, all: set<ObjectId>)
      requires all == VisibleIds() && Streamed(sent, order, pending, all)
      ensures forall i | 0 <= i < |sent| ::
        && ParseHex(sent[i].id).Some? && ParseHex(sent[i].id).value in docs
        && Visible(docs[ParseHex(sent[i].id).value])
        && sent[i] == ListedRole(ParseHex(sent[i].id).value, docs[ParseHex(sent[i].id).value])
      ensures forall i, j | 0 <= i < j < |sent| :: sent[i].id != sent[j].id
      ensures pending == {} ==> forall id | id in all :: id in order
    {
      ListedDistinct(sent, order);
    }

    /** The messages built from a duplicate-free sequence of visible ids show
        visible roles and carry distinct ids. */
    lemma ListedDistinct(sent: seq<RoleMsg>, order: seq<ObjectId>)
      requires |order| == |sent|
      requires forall i | 0 <= i < |order| :: order[i] in docs && Visible(docs[order[i]])
      requires forall i | 0 <= i < |order| :: sent[i] == ListedRole(order[i], docs[order[i]])
      requires forall i, j | 0 <= i < j < |order| :: order[i] != order[j]
      ensures forall i | 0 <= i < |sent| ::
        && ParseHex(sent[i].id).Some? && ParseHex(sent[i].id).value in docs
        && Visible(docs[ParseHex(sent[i].id).value])
        && sent[i] == ListedRole(ParseHex(sent[i].id).value, docs[ParseHex(sent[i].id).value])
      ensures forall i, j | 0 <= i < j < |sent| :: sent[i].id != sent[j].id
    {
      forall i | 0 <= i < |sent| ensures ParseHex(sent[i].id) == Some(order[i]) {
        ParseHexOfHex(order[i]);
      }
      forall i, j | 0 <= i < j < |sent| ensures sent[i].id != sent[j].id {
        HexInjective(order[i], order[j]);
      }
    }

    /** A duplicate-free listing of all visible ids sends the text of each. */
    lemma ListedAll(sent: seq<RoleMsg>, order: seq<ObjectId>, all: set<ObjectId>)
      requires |order| == |sent|
      requires forall i | 0 <= i < |order| :: order[i] in all && order[i] in docs
      requires forall i | 0 <= i < |order| :: sent[i] == ListedRole(order[i], docs[order[i]])
      requires forall id | id in all :: id in order
      ensures SentIds(sent) == set id | id in all :: Hex(id)
    {
      forall x | x in SentIds(sent) ensures x in set id | id in all :: Hex(id) {
        var i :| 0 <= i < |sent| && sent[i].id == x;
        assert order[i] in all;
      }
      forall x | x in set id | id in all :: Hex(id) ensures x in SentIds(sent) {
        var id :| id in all && x == Hex(id);
        var i :| 0 <= i < |order| && order[i] == id;
        assert sent[i].id == x;
      }
    }

    /** mongoDbFixtureClean: DeleteMany with the filter bson.D{{}}, whose one
        element {"": null} every document matches, so the whole collection goes. */
    method FixtureClean(fails: bool) returns (ok: bool)
      modifies this
      ensures ok == !fails
      ensures docs == if ok then map[] else old(docs)
    {
      if fails {
        return false;
      }
      docs := map[];
      ok := true;
    }

    /** _genUserRole: insert one locked fixture role. */
    method GenUserRole(role: FixtureRole, draw: FixtureDraw) returns (ok: bool)
      modifies this
      ensures ok <==> !draw.fails && draw.id !in old(docs)
      ensures docs == if ok then old(docs)[draw.id := FixtureDoc(role, draw.now)] else old(docs)
    {
      if draw.fails || draw.id in docs {
        return false;
      }
      docs := docs[draw.id := FixtureDoc(role, draw.now)];
      ok := true;
    }

    /** The k-th of the four fixture inserts, on a collection holding the first k. */
    method GenFixture(draws: seq<FixtureDraw>, k: nat) returns (ok: bool)
      requires |draws| == |FixtureRoles| && k < |draws|
      requires AllAccepted(draws, k) && docs == Seeded(FixtureRoles, draws, k)
      modifies this
      ensures ok <==> Accepted(draws, k)
      ensures docs == if ok then Seeded(FixtureRoles, draws, k + 1) else old(docs)
      ensures ok ==> AllAccepted(draws, k + 1)
    {
      SeededFreshness(FixtureRoles, draws, k);
      ok := GenUserRole(FixtureRoles[k], draws[k]);
    }

    /** mongoDbFixtureLoadUserRoles: empty the collection, then insert
        ROLE_ADMIN, ROLE_DIRECTOR, ROLE_TEACHER and ROLE_VIEWER in that order,
        stopping at the first refused insert with the earlier ones kept. */
    method FixtureLoadUserRoles(cleanFails: bool, draws: seq<FixtureDraw>) returns (ok: bool, inserted: nat)
      requires |draws| == |FixtureRoles|
      modifies this
      ensures cleanFails ==> !ok && inserted == 0 && docs == old(docs)
      ensures !cleanFails ==>
        && inserted <= |draws|
        && AllAccepted(draws, inserted)
        && docs == Seeded(FixtureRoles, draws, inserted)
        && (ok <==> inserted == |draws|)
        && (!ok ==> !Accepted(draws, inserted))
    {
      var cleaned := FixtureClean(cleanFails);
      if !cleaned {
        return false, 0;
      }
      inserted := 0;
      ok := GenFixture(draws, 0);
      if !ok { return; }
      inserted := 1;
      ok := GenFixture(draws, 1);
      if !ok { return; }
      inserted := 2;
      ok := GenFixture(draws, 2);
      if !ok { return; }
      inserted := 3;
      ok := GenFixture(draws, 3);
      if !ok { return; }
      inserted := 4;
    }
  }

  /** Deleting twice: the second call finds no visible role, so at most one
      of two deletes of the same id reports success. */
  method DeleteTwice(store: RoleStore, id: string, now1: Timestamp, now2: Timestamp)
    returns (first: Result<bool>, second: Result<bool>)
    modifies store
    ensures ParseHex(id).Some? ==> second == Err(NotFound)
    ensures ParseHex(id).None? ==> first == second == Err(InvalidArgument)
  {
    first := store.DeleteRole(id, now1, false);
    second := store.DeleteRole(id, now2, false);
  }
}
