/** The invite-code service (src/api_usr_invite/server.go): a collection of
    invite-code documents keyed by object id, with soft-delete, a two-field
    equality filter for listing, and fixture seeding. */
module InviteService {
  import opened Common
  import opened ObjectIds

  /** A stored document: the UserInviteCode record plus the two fields that
      the handlers add with $set (deleted_at, updated_at), absent until then. */
  datatype InviteDoc = InviteDoc(
    code: string,
    forAppRole: string,
    validFrom: Timestamp,
    validTo: Timestamp,
    createdAt: Timestamp,
    isFixture: bool,
    isDeleted: bool,
    isTest: bool,
    deletedAt: Option<Timestamp>,
    updatedAt: Option<Timestamp>)

  /** The UserInviteCode wire message, used for requests and responses alike.
      An unset field reads as "", false or None. */
  datatype InviteCodeMsg = InviteCodeMsg(
    id: string,
    code: string,
    forAppRole: string,
    validFrom: Option<Timestamp>,
    validTo: Option<Timestamp>,
    createdAt: Option<Timestamp>,
    deletedAt: Option<Timestamp>,
    isFixture: bool,
    isDeleted: bool,
    isTest: bool)

  const EmptyMsg := InviteCodeMsg("", "", "", None, None, None, None, false, false, false)

  /** Every query of the get, update, delete and unfiltered list handlers carries is_deleted = false. */
  predicate Visible(d: InviteDoc) {
    !d.isDeleted
  }

  // ---------------------------------------------------------------------------
  // Request translation and response mapping
  // ---------------------------------------------------------------------------

  /** The record CreateInviteCode inserts: code and role copied, each validity
      time reduced to its seconds field with the nanoseconds dropped,
      created_at set to now, flags copied. */
  function NewInviteDoc(req: InviteCodeMsg, now: Timestamp): (d: InviteDoc)
    requires req.validFrom.Some? && req.validTo.Some?
    ensures d.code == req.code && d.forAppRole == req.forAppRole
    ensures d.validFrom.nanos == 0 && d.validFrom.seconds == req.validFrom.value.seconds
    ensures d.validTo.nanos == 0 && d.validTo.seconds == req.validTo.value.seconds
    ensures d.isFixture == req.isFixture && d.isDeleted == req.isDeleted && d.isTest == req.isTest
    ensures d.createdAt == now && d.deletedAt.None? && d.updatedAt.None?
    ensures Visible(d) <==> !req.isDeleted
  {
    InviteDoc(req.code, req.forAppRole,
              WholeSeconds(req.validFrom.value), WholeSeconds(req.validTo.value),
              now, req.isFixture, req.isDeleted, req.isTest, None, None)
  }

  /** The response body of GetInviteCode for the document stored under oid:
      the id's text, code, role, the three times and is_fixture; the deletion
      state and is_test are not sent. */
  function GetResponse(oid: ObjectId, d: InviteDoc): (m: InviteCodeMsg)
    ensures ParseHex(m.id) == Some(oid)
    ensures m.code == d.code && m.forAppRole == d.forAppRole && m.isFixture == d.isFixture
    ensures Shows(m.validFrom, d.validFrom) && Shows(m.validTo, d.validTo) && Shows(m.createdAt, d.createdAt)
    ensures m.deletedAt.None? && !m.isDeleted && !m.isTest
  {
    ParseHexOfHex(oid);
    EmptyMsg.(id := Hex(oid), code := d.code, forAppRole := d.forAppRole,
              validFrom := ToProto(d.validFrom), validTo := ToProto(d.validTo),
              createdAt := ToProto(d.createdAt), isFixture := d.isFixture)
  }

  /** The $set of DeleteInviteCode: the document is hidden but kept, with
      only the two deletion fields changed. */
  function SoftDeleted(d: InviteDoc, now: Timestamp): (r: InviteDoc)
    ensures !Visible(r) && r.deletedAt == Some(now)
    ensures r.(isDeleted := d.isDeleted, deletedAt := d.deletedAt) == d
  {
    d.(isDeleted := true, deletedAt := Some(now))
  }

  /** The $set of UpdateInviteCode: code, role, validity window and
      updated_at change; the flags, created_at and deleted_at stay, so an
      updated code stays visible. */
  function UpdatedDoc(d: InviteDoc, req: InviteCodeMsg, now: Timestamp): (r: InviteDoc)
    ensures r.code == req.code && r.forAppRole == req.forAppRole && r.updatedAt == Some(now)
    ensures r.validFrom == AsTime(req.validFrom) && r.validTo == AsTime(req.validTo)
    ensures r.isDeleted == d.isDeleted && r.isFixture == d.isFixture && r.isTest == d.isTest
    ensures r.createdAt == d.createdAt && r.deletedAt == d.deletedAt
    ensures Visible(r) <==> Visible(d)
  {
    d.(code := req.code, forAppRole := req.forAppRole,
       validFrom := AsTime(req.validFrom), validTo := AsTime(req.validTo),
       updatedAt := Some(now))
  }

  /** The response body of UpdateInviteCode, built from the document after
      the update: the id's text, code, role and validity window only. */
  function UpdateResponse(oid: ObjectId, d: InviteDoc): (m: InviteCodeMsg)
    ensures ParseHex(m.id) == Some(oid)
    ensures m.code == d.code && m.forAppRole == d.forAppRole
    ensures Shows(m.validFrom, d.validFrom) && Shows(m.validTo, d.validTo)
    ensures m.createdAt.None? && m.deletedAt.None? && !m.isFixture && !m.isDeleted && !m.isTest
  {
    ParseHexOfHex(oid);
    EmptyMsg.(id := Hex(oid), code := d.code, forAppRole := d.forAppRole,
              validFrom := ToProto(d.validFrom), validTo := ToProto(d.validTo))
  }

  /** One message of the ListInviteCodes and ListFilteredInviteCodes streams:
      the id's text, code, role and validity window only. */
  function ListedInvite(oid: ObjectId, d: InviteDoc): (m: InviteCodeMsg)
    ensures ParseHex(m.id) == Some(oid)
    ensures m.code == d.code && m.forAppRole == d.forAppRole
    ensures Shows(m.validFrom, d.validFrom) && Shows(m.validTo, d.validTo)
    ensures m.createdAt.None? && m.deletedAt.None? && !m.isFixture && !m.isDeleted && !m.isTest
  {
    ParseHexOfHex(oid);
    EmptyMsg.(id := Hex(oid), code := d.code, forAppRole := d.forAppRole,
              validFrom := ToProto(d.validFrom), validTo := ToProto(d.validTo))
  }

  /** A freshly created code keeps the caller's flags and is seen by
      GetInviteCode with the caller's code and role, the seconds fields of the
      requested validity times and the server's creation time; a time outside the
      years 1 to 9999 is absent from the response. */
  lemma CreateThenGet(req: InviteCodeMsg, now: Timestamp, oid: ObjectId)
    requires req.validFrom.Some? && req.validTo.Some?
    ensures var d := NewInviteDoc(req, now);
      && d.isTest == req.isTest && d.isDeleted == req.isDeleted && d.isFixture == req.isFixture
      && d.createdAt == now && d.deletedAt.None? && d.updatedAt.None?
    ensures Visible(NewInviteDoc(req, now)) <==> !req.isDeleted
    ensures var m := GetResponse(oid, NewInviteDoc(req, now));
      && m.id == Hex(oid) && ParseHex(m.id) == Some(oid)
      && m.code == req.code && m.forAppRole == req.forAppRole
      && m.validFrom == ToProto(Timestamp(req.validFrom.value.seconds, 0))
      && m.validTo == ToProto(Timestamp(req.validTo.value.seconds, 0))
      && m.createdAt == ToProto(now) && m.isFixture == req.isFixture
    ensures var m := GetResponse(oid, NewInviteDoc(req, now));
      && (MinProtoSeconds <= req.validFrom.value.seconds < MaxProtoSeconds
          <==> m.validFrom == Some(Timestamp(req.validFrom.value.seconds, 0)))
      && (MinProtoSeconds <= req.validTo.value.seconds < MaxProtoSeconds
          <==> m.validTo == Some(Timestamp(req.validTo.value.seconds, 0)))
      && (InProtoRange(now) ==> m.createdAt == Some(now))
  {
    ParseHexOfHex(oid);
  }

  /** A validity start in year 10000 is stored but read back absent. */
  lemma YearTenThousandReadsBackAbsent(req: InviteCodeMsg, now: Timestamp, oid: ObjectId)
    requires req.validFrom == Some(Timestamp(253402300800, 0)) && req.validTo.Some?
    ensures NewInviteDoc(req, now).validFrom == Timestamp(253402300800, 0)
    ensures GetResponse(oid, NewInviteDoc(req, now)).validFrom.None?
  {
  }

  /** The update response and a later get both show the values just written,
      as AsTime reads them: an absent time is the epoch and excess
      nanoseconds are carried into the seconds. */
  lemma UpdateThenGet(oid: ObjectId, d: InviteDoc, req: InviteCodeMsg, now: Timestamp)
    ensures var m := UpdateResponse(oid, UpdatedDoc(d, req, now));
      && m.code == req.code && m.forAppRole == req.forAppRole
      && m.validFrom == ToProto(AsTime(req.validFrom)) && m.validTo == ToProto(AsTime(req.validTo))
    ensures var g := GetResponse(oid, UpdatedDoc(d, req, now));
      && g.code == req.code && g.forAppRole == req.forAppRole
      && g.validFrom == ToProto(AsTime(req.validFrom)) && g.validTo == ToProto(AsTime(req.validTo))
      && g.createdAt == ToProto(d.createdAt)
    ensures req.validFrom.None? ==> UpdateResponse(oid, UpdatedDoc(d, req, now)).validFrom == Some(UnixEpoch)
    ensures req.validTo.None? ==> UpdateResponse(oid, UpdatedDoc(d, req, now)).validTo == Some(UnixEpoch)
    ensures req.validFrom.Some? && InProtoRange(req.validFrom.value) ==>
      UpdateResponse(oid, UpdatedDoc(d, req, now)).validFrom == req.validFrom
    ensures req.validTo.Some? && InProtoRange(req.validTo.value) ==>
      UpdateResponse(oid, UpdatedDoc(d, req, now)).validTo == req.validTo
  {
  }

  /** The create and update paths read the same request time differently:
      create drops the nanoseconds field, update carries it into the seconds.
      So {10 s, 1.5e9 ns}, which is 11.5 s, is created as 10 s and updated to
      11.5 s, and {10 s, -0.5e9 ns}, which is 9.5 s, is created as 10 s, after
      the requested time. */
  lemma CreateVsUpdate(req: InviteCodeMsg, d: InviteDoc, now: Timestamp)
    requires req.validFrom == Some(Timestamp(10, 1500000000)) && req.validTo == Some(Timestamp(10, -500000000))
    ensures NewInviteDoc(req, now).validFrom == Timestamp(10, 0)
    ensures UpdatedDoc(d, req, now).validFrom == Timestamp(11, 500000000)
    ensures Instant(NewInviteDoc(req, now).validFrom) + 1500000000 == Instant(req.validFrom.value)
    ensures NewInviteDoc(req, now).validTo == Timestamp(10, 0)
    ensures Instant(NewInviteDoc(req, now).validTo) > Instant(req.validTo.value)
    ensures UpdatedDoc(d, req, now).validTo == Timestamp(9, 500000000)
  {
  }

  /** Two seconds' worth of nanoseconds given with ten seconds are stored and
      answered as twelve seconds. */
  lemma UpdateCarriesNanos(oid: ObjectId, d: InviteDoc, req: InviteCodeMsg, now: Timestamp)
    requires req.validFrom == Some(Timestamp(10, 2000000000))
    ensures UpdatedDoc(d, req, now).validFrom == Timestamp(12, 0)
    ensures UpdateResponse(oid, UpdatedDoc(d, req, now)).validFrom == Some(Timestamp(12, 0))
  {
    AsTimeCarries();
  }

  // ---------------------------------------------------------------------------
  // Filter builder
  // ---------------------------------------------------------------------------

  /** The document fields a filter can name. */
  datatype Field = MetaCode | MetaForAppRole | IsDeleted

  datatype Value = Str(s: string) | Flag(b: bool)

  /** A bson.M filter: a conjunction of exact matches, one per named field. */
  type Filter = map<Field, Value>

  function FieldValue(d: InviteDoc, f: Field): Value {
    match f
    case MetaCode => Str(d.code)
    case MetaForAppRole => Str(d.forAppRole)
    case IsDeleted => Flag(d.isDeleted)
  }

  predicate Matches(filter: Filter, d: InviteDoc)
    ensures filter == map[] ==> Matches(filter, d)
  {
    forall f | f in filter :: FieldValue(d, f) == filter[f]
  }

  /** A bson.M filter is the conjunction of its parts: a filter made of two
      parts on different fields matches exactly when both parts match. */
  lemma MatchesUnion(f: Filter, g: Filter, d: InviteDoc)
    requires f.Keys !! g.Keys
    ensures Matches(f + g, d) <==> Matches(f, d) && Matches(g, d)
  {
    if Matches(f + g, d) {
      forall x | x in f ensures FieldValue(d, x) == f[x] {
        assert x !in g;
        assert (f + g)[x] == f[x];
      }
      forall x | x in g ensures FieldValue(d, x) == g[x] {
        assert (f + g)[x] == g[x];
      }
    }
    if Matches(f, d) && Matches(g, d) {
      forall x | x in f + g ensures FieldValue(d, x) == (f + g)[x] {
        if x in g { assert (f + g)[x] == g[x]; } else { assert (f + g)[x] == f[x]; }
      }
    }
  }

  /** The filter of ListInviteCodes. */
  const VisibleFilter: Filter := map[IsDeleted := Flag(false)]

  /** The UserInviteCodeFilter request message; an absent filter reads as two empty strings. */
  datatype InviteCodeFilter = InviteCodeFilter(code: string, forAppRole: string)

  /** _getBSONFilterByRequest: both fields, then code alone, then role alone,
      each with is_deleted = false; with neither field, the empty filter. */
  function FilterByRequest(req: InviteCodeFilter): (filter: Filter)
    ensures (MetaCode in filter <==> req.code != "") && (MetaCode in filter ==> filter[MetaCode] == Str(req.code))
    ensures (MetaForAppRole in filter <==> req.forAppRole != "")
    ensures MetaForAppRole in filter ==> filter[MetaForAppRole] == Str(req.forAppRole)
    ensures (IsDeleted in filter <==> req.code != "" || req.forAppRole != "")
    ensures IsDeleted in filter ==> filter[IsDeleted] == Flag(false)
  {
    if req.code != "" && req.forAppRole != "" then
      map[MetaForAppRole := Str(req.forAppRole), MetaCode := Str(req.code), IsDeleted := Flag(false)]
    else if req.code != "" then
      map[MetaCode := Str(req.code), IsDeleted := Flag(false)]
    else if req.forAppRole != "" then
      map[MetaForAppRole := Str(req.forAppRole), IsDeleted := Flag(false)]
    else
      map[]
  }

  /** What the built filter selects: the requested code and role, and only
      visible documents as soon as one criterion is given. */
  lemma FilterSelects(req: InviteCodeFilter, d: InviteDoc)
    ensures Matches(FilterByRequest(req), d) <==>
      && (req.code != "" ==> d.code == req.code)
      && (req.forAppRole != "" ==> d.forAppRole == req.forAppRole)
      && (req.code != "" || req.forAppRole != "" ==> Visible(d))
  {
    var filter := FilterByRequest(req);
    if Matches(filter, d) {
      if req.code != "" { assert FieldValue(d, MetaCode) == filter[MetaCode]; }
      if req.forAppRole != "" { assert FieldValue(d, MetaForAppRole) == filter[MetaForAppRole]; }
      if req.code != "" || req.forAppRole != "" { assert FieldValue(d, IsDeleted) == filter[IsDeleted]; }
    }
  }

  /** With neither criterion the filter is empty and selects soft-deleted
      documents too, unlike ListInviteCodes. */
  lemma EmptyFilterSelectsDeleted(d: InviteDoc)
    ensures Matches(FilterByRequest(InviteCodeFilter("", "")), d)
    ensures d.isDeleted ==> !Matches(VisibleFilter, d)
  {
    if d.isDeleted {
      assert FieldValue(d, IsDeleted) != VisibleFilter[IsDeleted];
    }
  }

  lemma VisibleFilterSelectsVisible(d: InviteDoc)
    ensures Matches(VisibleFilter, d) <==> Visible(d)
  {
    assert IsDeleted in VisibleFilter;
    if Matches(VisibleFilter, d) {
      assert FieldValue(d, IsDeleted) == VisibleFilter[IsDeleted];
    }
  }

  // ---------------------------------------------------------------------------
  // Fixtures
  // ---------------------------------------------------------------------------

  const MaxAdminCodes := 10
  const MaxPowerUserCodes := 3
  const MaxTeacherCodes := 99
  const MaxViewerCodes := 5

  /** The validity window of a fixture code: 8760 hours. */
  const FixtureValidHours := 8760

  function Repeat(x: string, n: nat): (s: seq<string>)
    ensures |s| == n && forall i :: 0 <= i < n ==> s[i] == x
  {
    seq(n, _ => x)
  }

  lemma {:induction false} RepeatMultiset(x: string, n: nat)
    ensures multiset(Repeat(x, n)) == multiset{}[x := n]
  {
    if n > 0 {
      RepeatMultiset(x, n - 1);
      assert Repeat(x, n) == Repeat(x, n - 1) + [x];
    }
  }

  /** The roles of the fixture codes in the order they are inserted. */
  function FixtureRoles(): seq<string> {
    Repeat("admin", MaxAdminCodes) + Repeat("director", MaxPowerUserCodes)
      + Repeat("teacher", MaxTeacherCodes) + Repeat("viewer", MaxViewerCodes)
  }

  /** Seeding inserts 117 codes: 10 admin, 3 director, 99 teacher and 5 viewer. */
  lemma FixtureRoleCounts()
    ensures |FixtureRoles()| == 117
    ensures multiset(FixtureRoles()) ==
      multiset{}["admin" := 10]["director" := 3]["teacher" := 99]["viewer" := 5]
  {
    RepeatMultiset("admin", MaxAdminCodes);
    RepeatMultiset("director", MaxPowerUserCodes);
    RepeatMultiset("teacher", MaxTeacherCodes);
    RepeatMultiset("viewer", MaxViewerCodes);
  }

  /** What the environment provides for one _genUserInviteCode call: the id
      the store assigns, the generated ULID code, the current time, the random
      offset of valid_from (rand.Float32() * 60, truncated to whole seconds),
      and whether the store refuses the insert. */
  datatype FixtureDraw = FixtureDraw(id: ObjectId, code: string, now: Timestamp, offsetSeconds: nat, fails: bool)

  /** The record _genUserInviteCode inserts: a visible, non-test fixture for
      the role, created at the draw's time and valid for one year of 8760
      hours from a start the drawn offset after its creation. */
  function FixtureDoc(role: string, draw: FixtureDraw): (d: InviteDoc)
    ensures d.isFixture && Visible(d) && !d.isTest && d.deletedAt.None? && d.updatedAt.None?
    ensures d.code == draw.code && d.forAppRole == role && d.createdAt == draw.now
    ensures Instant(d.validFrom) == Instant(draw.now) + draw.offsetSeconds * NanosPerSecond
    ensures Instant(d.validTo) == Instant(d.validFrom) + 8760 * 3600 * NanosPerSecond
    ensures d.validFrom.seconds == draw.now.seconds + draw.offsetSeconds && d.validFrom.nanos == draw.now.nanos
    ensures d.validTo.seconds == d.validFrom.seconds + 8760 * 3600 && d.validTo.nanos == d.validFrom.nanos
  {
    var validFrom := AddSeconds(draw.now, draw.offsetSeconds);
    InviteDoc(draw.code, role, validFrom, AddSeconds(validFrom, FixtureValidHours * SecondsPerHour),
              draw.now, true, false, false, None, None)
  }

  /** The insert of draw k is accepted: no store failure and an id not taken
      by an earlier fixture (the collection is empty after the clean). */
  predicate Accepted(draws: seq<FixtureDraw>, k: nat)
    requires k < |draws|
  {
    !draws[k].fails && forall j | 0 <= j < k :: draws[j].id != draws[k].id
  }

  predicate AllAccepted(draws: seq<FixtureDraw>, n: nat)
    requires n <= |draws|
  {
    forall k | 0 <= k < n :: Accepted(draws, k)
  }

  /** The collection after the first n fixture inserts, starting from empty. */
  function Seeded(roles: seq<string>, draws: seq<FixtureDraw>, n: nat): map<ObjectId, InviteDoc>
    requires n <= |roles| && n <= |draws|
  {
    if n == 0 then map[]
    else Seeded(roles, draws, n - 1)[draws[n - 1].id := FixtureDoc(roles[n - 1], draws[n - 1])]
  }

  /** After n accepted inserts the collection holds exactly the n fixtures,
      each under its own id. */
  lemma {:induction false} SeededContents(roles: seq<string>, draws: seq<FixtureDraw>, n: nat)
    requires n <= |roles| && n <= |draws| && AllAccepted(draws, n)
    ensures Seeded(roles, draws, n).Keys == DrawIds(draws, n)
    ensures |Seeded(roles, draws, n)| == n
    ensures forall k | 0 <= k < n :: Seeded(roles, draws, n)[draws[k].id] == FixtureDoc(roles[k], draws[k])
  {
    SeededKeys(roles, draws, n);
    forall k | 0 <= k < n ensures Seeded(roles, draws, n)[draws[k].id] == FixtureDoc(roles[k], draws[k]) {
      SeededValue(roles, draws, n, k);
    }
  }

  lemma {:induction false} SeededKeys(roles: seq<string>, draws: seq<FixtureDraw>, n: nat)
    requires n <= |roles| && n <= |draws| && AllAccepted(draws, n)
    ensures Seeded(roles, draws, n).Keys == DrawIds(draws, n)
    ensures |Seeded(roles, draws, n)| == n
  {
    if n > 0 {
      AcceptedPrefix(draws, n);
      SeededKeys(roles, draws, n - 1);
      DrawIdsStep(draws, n);
      assert Accepted(draws, n - 1);
      FreshId(draws, n - 1);
    }
  }

  /** The ids of the first n draws. */
  function DrawIds(draws: seq<FixtureDraw>, n: nat): set<ObjectId>
    requires n <= |draws|
  {
    set k | 0 <= k < n :: draws[k].id
  }

  lemma DrawIdsStep(draws: seq<FixtureDraw>, n: nat)
    requires 0 < n <= |draws|
    ensures DrawIds(draws, n) == DrawIds(draws, n - 1) + {draws[n - 1].id}
  {
    assert draws[n - 1].id in DrawIds(draws, n);
  }

  lemma AcceptedPrefix(draws: seq<FixtureDraw>, n: nat)
    requires 0 < n <= |draws| && AllAccepted(draws, n)
    ensures AllAccepted(draws, n - 1) && Accepted(draws, n - 1)
  {
  }

  /** An accepted draw's id is not among the earlier ones. */
  lemma FreshId(draws: seq<FixtureDraw>, n: nat)
    requires n < |draws| && Accepted(draws, n)
    ensures draws[n].id !in DrawIds(draws, n)
  {
  }

  lemma {:induction false} SeededValue(roles: seq<string>, draws: seq<FixtureDraw>, n: nat, k: nat)
    requires n <= |roles| && n <= |draws| && AllAccepted(draws, n) && k < n
    ensures draws[k].id in Seeded(roles, draws, n)
    ensures Seeded(roles, draws, n)[draws[k].id] == FixtureDoc(roles[k], draws[k])
  {
    if k < n - 1 {
      assert AllAccepted(draws, n - 1);
      SeededValue(roles, draws, n - 1, k);
      assert Accepted(draws, n - 1);
      assert draws[k].id != draws[n - 1].id;
    }
  }

  /** On the empty collection fixture n is inserted exactly when it is accepted. */
  lemma SeededFreshness(roles: seq<string>, draws: seq<FixtureDraw>, n: nat)
    requires n < |roles| && n < |draws| && AllAccepted(draws, n)
    ensures (!draws[n].fails && draws[n].id !in Seeded(roles, draws, n)) <==> Accepted(draws, n)
  {
    SeededContents(roles, draws, n);
    if !Accepted(draws, n) && !draws[n].fails {
      var j :| 0 <= j < n && draws[j].id == draws[n].id;
      assert draws[j].id in Seeded(roles, draws, n);
    }
  }

  /** A message of a listing names a document of docs that the filter selects, and shows it. */
  predicate ListedFrom(m: InviteCodeMsg, docs: map<ObjectId, InviteDoc>, filter: Filter) {
    && ParseHex(m.id).Some?
    && ParseHex(m.id).value in docs
    && Matches(filter, docs[ParseHex(m.id).value])
    && m == ListedInvite(ParseHex(m.id).value, docs[ParseHex(m.id).value])
  }

  /** The ids a stream sent. */
  function SentIds(sent: seq<InviteCodeMsg>): set<string> {
    set i | 0 <= i < |sent| :: sent[i].id
  }

  // ---------------------------------------------------------------------------
  // The service and its collection
  // ---------------------------------------------------------------------------

  class InviteCodeStore {
    /** The user_codes collection. */
    var docs: map<ObjectId, InviteDoc>

    constructor (initial: map<ObjectId, InviteDoc>)
      ensures docs == initial
    {
      docs := initial;
    }

    /** The ids of the documents a filter selects. */
    function Selected(filter: Filter): (ids: set<ObjectId>)
      reads this
      ensures forall id :: id in ids <==> id in docs && Matches(filter, docs[id])
    {
      set id | id in docs && Matches(filter, docs[id])
    }

    /** CreateInviteCode: one insert under the id the store assigns; an insert
        the store refuses (a store failure, or an id already taken) is Internal
        and adds nothing. The response is the request with the new id. */
    method CreateInviteCode(req: InviteCodeMsg, now: Timestamp, newId: ObjectId, storeFails: bool)
      returns (r: Result<InviteCodeMsg>)
      requires req.validFrom.Some? && req.validTo.Some?
      modifies this
      ensures r.Ok? <==> !storeFails && newId !in old(docs)
      ensures r.Err? ==> r.code == Internal && docs == old(docs)
      ensures r.Ok? ==> docs == old(docs)[newId := NewInviteDoc(req, now)]
      ensures r.Ok? ==> r.value == req.(id := Hex(newId)) && ParseHex(r.value.id) == Some(newId)
    {
      if storeFails || newId in docs {
        return Err(Internal);
      }
      docs := docs[newId := NewInviteDoc(req, now)];
      ParseHexOfHex(newId);
      r := Ok(req.(id := Hex(newId)));
    }

    /** GetInviteCode: an id that does not parse is InvalidArgument; a missing
        or soft-deleted document, or a failed lookup, is NotFound. */
    method GetInviteCode(id: string, storeFails: bool) returns (r: Result<InviteCodeMsg>)
      ensures ParseHex(id).None? ==> r == Err(InvalidArgument)
      ensures ParseHex(id).Some? ==>
        var oid := ParseHex(id).value;
        if !storeFails && oid in docs && Visible(docs[oid])
        then r == Ok(GetResponse(oid, docs[oid]))
        else r == Err(NotFound)
      ensures r.Ok? ==> ParseHex(r.value.id) == ParseHex(id)
    {
      var parsed := ParseHex(id);
      if parsed.None? {
        return Err(InvalidArgument);
      }
      var oid := parsed.value;
      ParseHexOfHex(oid);
      if !storeFails && oid in docs && !docs[oid].isDeleted {
        r := Ok(GetResponse(oid, docs[oid]));
      } else {
        r := Err(NotFound);
      }
    }

    /** DeleteInviteCode: one atomic find-and-update of a visible document;
        anything else is NotFound and changes nothing. */
    method DeleteInviteCode(id: string, now: Timestamp, storeFails: bool) returns (r: Result<bool>)
      modifies this
      ensures ParseHex(id).None? ==> r == Err(InvalidArgument) && docs == old(docs)
      ensures ParseHex(id).Some? ==>
        var oid := ParseHex(id).value;
        if !storeFails && oid in old(docs) && Visible(old(docs)[oid])
        then r == Ok(true) && docs == old(docs)[oid := SoftDeleted(old(docs)[oid], now)]
        else r == Err(NotFound) && docs == old(docs)
    {
      var parsed := ParseHex(id);
      if parsed.None? {
        return Err(InvalidArgument);
      }
      var oid := parsed.value;
      if !storeFails && oid in docs && !docs[oid].isDeleted {
        docs := docs[oid := SoftDeleted(docs[oid], now)];
        r := Ok(true);
      } else {
        r := Err(NotFound);
      }
    }

    /** UpdateInviteCode: one atomic find-and-update of a visible document,
        answered from the document as it is after the update. */
    method UpdateInviteCode(req: InviteCodeMsg, now: Timestamp, storeFails: bool) returns (r: Result<InviteCodeMsg>)
      modifies this
      ensures ParseHex(req.id).None? ==> r == Err(InvalidArgument) && docs == old(docs)
      ensures ParseHex(req.id).Some? ==>
        var oid := ParseHex(req.id).value;
        if !storeFails && oid in old(docs) && Visible(old(docs)[oid])
        then docs == old(docs)[oid := UpdatedDoc(old(docs)[oid], req, now)]
             && r == Ok(UpdateResponse(oid, docs[oid]))
        else r == Err(NotFound) && docs == old(docs)
    {
      var parsed := ParseHex(req.id);
      if parsed.None? {
        return Err(InvalidArgument);
      }
      var oid := parsed.value;
      if !storeFails && oid in docs && !docs[oid].isDeleted {
        docs := docs[oid := UpdatedDoc(docs[oid], req, now)];
        r := Ok(UpdateResponse(oid, docs[oid]));
      } else {
        r := Err(NotFound);
      }
    }

    /** The Find-and-cursor loop shared by both listing handlers: every
        selected document is sent once, in an order the store chooses. */
    method StreamSelected(filter: Filter, fault: ListFault) returns (sent: seq<InviteCodeMsg>, outcome: Outcome)
      ensures forall i | 0 <= i < |sent| :: ListedFrom(sent[i], docs, filter)
      ensures forall i, j | 0 <= i < j < |sent| :: sent[i].id != sent[j].id
      ensures outcome.Pass? ==> SentIds(sent) == set id | id in Selected(filter) :: Hex(id)
      ensures fault.NoFault? ==> outcome.Pass?
      ensures fault.FindFails? ==> sent == [] && outcome == Fail(Internal)
      ensures fault.DecodeFailsAt? ==>
        if fault.k < |Selected(filter)| then |sent| == fault.k && outcome == Fail(Unavailable) else outcome.Pass?
      ensures fault.CursorFailsAt? ==>
        if fault.k <= |Selected(filter)| then |sent| == fault.k && outcome == Fail(Internal) else outcome.Pass?
    {
      if fault.FindFails? {
        return [], Fail(Internal);
      }
      var pending := Selected(filter);
      ghost var all := pending;
      ghost var order: seq<ObjectId> := [];
      sent := [];
      while pending != {}
        invariant all == Selected(filter) && Streamed(sent, order, pending, all)
        invariant fault.DecodeFailsAt? ==> |sent| <= fault.k
        invariant fault.CursorFailsAt? ==> |sent| <= fault.k
        decreases pending
      {
        var id :| id in pending;
        if fault == CursorFailsAt(|sent|) || fault == DecodeFailsAt(|sent|) {
          outcome := if fault.CursorFailsAt? then Fail(Internal) else Fail(Unavailable);
          Finished(filter, sent, order, pending, all, fault, outcome);
          return;
        }
        StreamStep(sent, order, pending, all, id);
        sent := sent + [ListedInvite(id, docs[id])];
        order := order + [id];
        pending := pending - {id};
      }
      // cursor.Err() after the last document
      outcome := if fault == CursorFailsAt(|sent|) then Fail(Internal) else Pass;
      Finished(filter, sent, order, pending, all, fault, outcome);
    }

    /** The state of a listing: sent shows the distinct selected ids of order,
        each taken out of pending, and every selected id is pending or sent. */
    ghost predicate Streamed(sent: seq<InviteCodeMsg>, order: seq<ObjectId>, pending: set<ObjectId>, all: set<ObjectId>)
      reads this
    {
      && pending <= all
      && |order| == |sent| && |sent| + |pending| == |all|
      && (forall i | 0 <= i < |order| :: order[i] in all && order[i] !in pending)
      && (forall i | 0 <= i < |order| :: order[i] in docs && sent[i] == ListedInvite(order[i], docs[order[i]]))
      && (forall i, j | 0 <= i < j < |order| :: order[i] != order[j])
      && (forall id | id in all :: id in pending || id in order)
    }

    /** Sending one pending selected document keeps the listing state. */
    lemma StreamStep(sent: seq<InviteCodeMsg>, order: seq<ObjectId>, pending: set<ObjectId>, all: set<ObjectId>,
                     id: ObjectId)
      requires Streamed(sent, order, pending, all) && id in pending && id in docs
      ensures Streamed(sent + [ListedInvite(id, docs[id])], order + [id], pending - {id}, all)
    {
      assert |pending - {id}| == |pending| - 1;
    }

    /** How a listing ends: at a decode fault while documents are still
        pending, at a cursor error before any position up to the last, or
        with every selected document sent. */
    lemma Finished(filter: Filter, sent: seq<InviteCodeMsg>, order: seq<ObjectId>, pending: set<ObjectId>,
                   all: set<ObjectId>, fault: ListFault, outcome: Outcome)
      requires all == Selected(filter) && Streamed(sent, order, pending, all)
      requires !fault.FindFails?
      requires fault.DecodeFailsAt? ==> |sent| <= fault.k
      requires fault.CursorFailsAt? ==> |sent| <= fault.k
      requires outcome.Pass? ==> pending == {} && fault != CursorFailsAt(|sent|)
      requires outcome.Fail? ==> fault == CursorFailsAt(|sent|) || (pending != {} && fault == DecodeFailsAt(|sent|))
      requires outcome.Fail? ==> outcome.code == if fault.CursorFailsAt? then Internal else Unavailable
      ensures forall i | 0 <= i < |sent| :: ListedFrom(sent[i], docs, filter)
      ensures forall i, j | 0 <= i < j < |sent| :: sent[i].id != sent[j].id
      ensures outcome.Pass? ==> SentIds(sent) == set id | id in Selected(filter) :: Hex(id)
      ensures fault.NoFault? ==> outcome.Pass?
      ensures fault.DecodeFailsAt? ==>
        if fault.k < |Selected(filter)| then |sent| == fault.k && outcome == Fail(Unavailable) else outcome.Pass?
      ensures fault.CursorFailsAt? ==>
        if fault.k <= |Selected(filter)| then |sent| == fault.k && outcome == Fail(Internal) else outcome.Pass?
    {
      ListedDistinct(sent, order, filter);
      if outcome.Pass? {
        ListedAll(sent, order, all);
      }
    }

    /** A duplicate-free listing of all selected ids sends the text of each. */
    lemma ListedAll(sent: seq<InviteCodeMsg>, order: seq<ObjectId>, all: set<ObjectId>)
      requires |order| == |sent|
      requires forall i | 0 <= i < |order| :: order[i] in all && order[i] in docs
      requires forall i | 0 <= i < |order| :: sent[i] == ListedInvite(order[i], docs[order[i]])
      requires forall id | id in all :: id in order
      ensures SentIds(sent) == set id | id in all :: Hex(id)
    {
      forall x | x in SentIds(sent) ensures x in set id | id in all :: Hex(id) {
        var i :| 0 <= i < |sent| && sent[i].id == x;
        assert order[i] in all;
      }
      forall x | x in set id | id in all :: Hex(id) ensures x in SentIds(sent) {
        var id :| id in all && x == Hex(id);
        var i :| 0 <= i < |order| && order[i] == id;
        assert sent[i].id == x;
      }
    }

    /** The messages built from a duplicate-free sequence of selected ids are
        listed from docs and carry distinct ids. */
    lemma ListedDistinct(sent: seq<InviteCodeMsg>, order: seq<ObjectId>, filter: Filter)
      requires |order| == |sent|
      requires forall i | 0 <= i < |order| :: order[i] in docs && Matches(filter, docs[order[i]])
      requires forall i | 0 <= i < |order| :: sent[i] == ListedInvite(order[i], docs[order[i]])
      requires forall i, j | 0 <= i < j < |order| :: order[i] != order[j]
      ensures forall i | 0 <= i < |sent| :: ListedFrom(sent[i], docs, filter)
      ensures forall i, j | 0 <= i < j < |sent| :: sent[i].id != sent[j].id
    {
      forall i | 0 <= i < |sent| ensures ListedFrom(sent[i], docs, filter) {
        ParseHexOfHex(order[i]);
      }
      forall i, j | 0 <= i < j < |sent| ensures sent[i].id != sent[j].id {
        HexInjective(order[i], order[j]);
      }
    }

    /** ListInviteCodes: each visible document once, never a soft-deleted one. */
    method ListInviteCodes(fault: ListFault) returns (sent: seq<InviteCodeMsg>, outcome: Outcome)
      ensures forall i | 0 <= i < |sent| ::
        && ParseHex(sent[i].id).Some? && ParseHex(sent[i].id).value in docs
        && Visible(docs[ParseHex(sent[i].id).value])
        && sent[i] == ListedInvite(ParseHex(sent[i].id).value, docs[ParseHex(sent[i].id).value])
      ensures forall i, j | 0 <= i < j < |sent| :: sent[i].id != sent[j].id
      ensures outcome.Pass? ==> SentIds(sent) == set id | id in docs && Visible(docs[id]) :: Hex(id)
      ensures fault.NoFault? ==> outcome.Pass?
      ensures fault.FindFails? ==> sent == [] && outcome == Fail(Internal)
      ensures fault.DecodeFailsAt? ==>
        if fault.k < |Selected(VisibleFilter)| then |sent| == fault.k && outcome == Fail(Unavailable) else outcome.Pass?
      ensures fault.CursorFailsAt? ==>
        if fault.k <= |Selected(VisibleFilter)| then |sent| == fault.k && outcome == Fail(Internal) else outcome.Pass?
    {
      sent, outcome := StreamSelected(VisibleFilter, fault);
      forall d: InviteDoc ensures Matches(VisibleFilter, d) <==> Visible(d) {
        VisibleFilterSelectsVisible(d);
      }
    }

    /** ListFilteredInviteCodes: each document the built filter selects, once;
        with no criterion that is every document, soft-deleted ones included. */
    method ListFilteredInviteCodes(req: InviteCodeFilter, fault: ListFault)
      returns (sent: seq<InviteCodeMsg>, outcome: Outcome)
      ensures forall i | 0 <= i < |sent| :: ListedFrom(sent[i], docs, FilterByRequest(req))
      ensures forall i, j | 0 <= i < j < |sent| :: sent[i].id != sent[j].id
      ensures outcome.Pass? ==> SentIds(sent) == set id | id in Selected(FilterByRequest(req)) :: Hex(id)
      ensures outcome.Pass? && req.code == "" && req.forAppRole == "" ==>
        SentIds(sent) == set id | id in docs :: Hex(id)
      ensures fault.NoFault? ==> outcome.Pass?
      ensures fault.FindFails? ==> sent == [] && outcome == Fail(Internal)
      ensures fault.DecodeFailsAt? ==>
        var n := |Selected(FilterByRequest(req))|;
        if fault.k < n then |sent| == fault.k && outcome == Fail(Unavailable) else outcome.Pass?
      ensures fault.CursorFailsAt? ==>
        var n := |Selected(FilterByRequest(req))|;
        if fault.k <= n then |sent| == fault.k && outcome == Fail(Internal) else outcome.Pass?
    {
      sent, outcome := StreamSelected(FilterByRequest(req), fault);
      if req.code == "" && req.forAppRole == "" {
        forall d: InviteDoc ensures Matches(FilterByRequest(req), d) {
          EmptyFilterSelectsDeleted(d);
        }
        assert Selected(FilterByRequest(req)) == docs.Keys;
      }
    }

    /** mongoDbFixtureClean: DeleteMany with the filter bson.D{{}}, whose one
        element {"": null} every document matches, so the whole collection goes. */
    method FixtureClean(fails: bool) returns (ok: bool)
      modifies this
      ensures ok == !fails
      ensures docs == if ok then map[] else old(docs)
    {
      if fails {
        return false;
      }
      docs := map[];
      ok := true;
    }

    /** _genUserInviteCode: insert one fixture code for a role. */
    method GenUserInviteCode(role: string, draw: FixtureDraw) returns (ok: bool)
      modifies this
      ensures ok <==> !draw.fails && draw.id !in old(docs)
      ensures docs == if ok then old(docs)[draw.id := FixtureDoc(role, draw)] else old(docs)
    {
      if draw.fails || draw.id in docs {
        return false;
      }
      docs := docs[draw.id := FixtureDoc(role, draw)];
      ok := true;
    }

    /** One counted loop of mongoDbFixtureLoadInviteCodes: count codes for one
        role, stopping at the first refused insert. */
    method GenUserInviteCodes(role: string, count: nat, draws: seq<FixtureDraw>, start: nat)
      returns (ok: bool, inserted: nat)
      requires |draws| == |FixtureRoles()| && start + count <= |draws|
      requires forall k | start <= k < start + count :: FixtureRoles()[k] == role
      requires AllAccepted(draws, start) && docs == Seeded(FixtureRoles(), draws, start)
      modifies this
      ensures start <= inserted <= start + count
      ensures AllAccepted(draws, inserted) && docs == Seeded(FixtureRoles(), draws, inserted)
      ensures ok <==> inserted == start + count
      ensures !ok ==> !Accepted(draws, inserted)
    {
      inserted := start;
      for c := 0 to count
        invariant inserted == start + c
        invariant AllAccepted(draws, inserted) && docs == Seeded(FixtureRoles(), draws, inserted)
      {
        SeededFreshness(FixtureRoles(), draws, inserted);
        var added := GenUserInviteCode(role, draws[inserted]);
        if !added {
          return false, inserted;
        }
        inserted := inserted + 1;
      }
      ok := true;
    }

    /** mongoDbFixtureLoadInviteCodes: empty the collection, then insert 10
        admin, 3 director, 99 teacher and 5 viewer codes, stopping at the first
        refused insert with the earlier ones kept. */
    method FixtureLoadInviteCodes(cleanFails: bool, draws: seq<FixtureDraw>) returns (ok: bool, inserted: nat)
      requires |draws| == |FixtureRoles()|
      modifies this
      ensures cleanFails ==> !ok && inserted == 0 && docs == old(docs)
      ensures !cleanFails ==>
        && inserted <= |draws|
        && AllAccepted(draws, inserted)
        && docs == Seeded(FixtureRoles(), draws, inserted)
        && (ok <==> inserted == |draws|)
        && (!ok ==> !Accepted(draws, inserted))
    {
      var cleaned := FixtureClean(cleanFails);
      if !cleaned {
        return false, 0;
      }
      var roles := FixtureRoles();
      assert forall k | 0 <= k < 10 :: roles[k] == "admin";
      assert forall k | 10 <= k < 13 :: roles[k] == "director";
      assert forall k | 13 <= k < 112 :: roles[k] == "teacher";
      assert forall k | 112 <= k < 117 :: roles[k] == "viewer";
      ok, inserted := GenUserInviteCodes("admin", MaxAdminCodes, draws, 0);
      if !ok { return; }
      ok, inserted := GenUserInviteCodes("director", MaxPowerUserCodes, draws, inserted);
      if !ok { return; }
      ok, inserted := GenUserInviteCodes("teacher", MaxTeacherCodes, draws, inserted);
      if !ok { return; }
      ok, inserted := GenUserInviteCodes("viewer", MaxViewerCodes, draws, inserted);
    }
  }

  /** Deleting twice: the second call finds no visible document, so at most
      one of two deletes of the same id reports success. */
  method DeleteTwice(store: InviteCodeStore, id: string, now1: Timestamp, now2: Timestamp)
    returns (first: Result<bool>, second: Result<bool>)
    modifies store
    ensures ParseHex(id).Some? ==> second == Err(NotFound)
    ensures ParseHex(id).None? ==> first == second == Err(InvalidArgument)
  {
    first := store.DeleteInviteCode(id, now1, false);
    second := store.DeleteInviteCode(id, now2, false);
  }

  /** A code created and then fetched by the id the create returned is found,
      with the caller's code and role, unless it was created deleted. */
  method CreateThenGetById(store: InviteCodeStore, req: InviteCodeMsg, now: Timestamp, newId: ObjectId)
    returns (created: Result<InviteCodeMsg>, got: Result<InviteCodeMsg>)
    requires req.validFrom.Some? && req.validTo.Some?
    modifies store
    ensures created.Ok? <==> newId !in old(store.docs)
    ensures created.Ok? ==> got == (if req.isDeleted then Err(NotFound) else Ok(GetResponse(newId, NewInviteDoc(req, now))))
    ensures created.Ok? && got.Ok? ==> got.value.id == created.value.id && got.value.code == req.code
  {
    created := store.CreateInviteCode(req, now, newId, false);
    if created.Err? {
      return created, Err(Internal);
    }
    got := store.GetInviteCode(created.value.id, false);
  }
}
