# Invite-code and user-role services, modelled in Dafny

This project models two small gRPC record services backed by a MongoDB collection each:

- the **user invite-code service** at `src/api_usr_invite/server.go`;
- the **user role service** at `src/api_usr_role/server.go`.

Each service stores documents under a 12-byte object id.

- **Handlers.** Create, get by id, soft-delete, update and list. The invite service also has a filtered listing built from optional code and role criteria.
- **Seeding.** A fixture loader empties the collection and inserts a fixed set of records.

The model has four modules:

- `Common` (`common.dfy`): status codes, handler results, timestamps and their protobuf conversion, the faults and outcomes of a listing, and the version probe.
- `ObjectIds` (`object_ids.dfy`): the object id and its 24-digit hexadecimal text form. The model proves that parsing and printing round-trip.
- `InviteService` (`invite_service.dfy`): the invite document and message, the handlers and the filter builder. It also covers fixture seeding of 117 codes.
- `RoleService` (`role_service.dfy`): the role document and message, the handlers and fixture seeding of four locked roles.

Each collection is a class (`InviteService.InviteCodeStore`, `RoleService.RoleStore`) whose field `docs: map<ObjectId, Doc>` the handler methods update.

**Inputs from the environment.** What the environment decides becomes a method parameter:

- the current time;
- the id the store assigns;
- whether an insert, find or update fails;
- where a cursor breaks;
- the generated ULID code and the random offset of a fixture.

**Listings.** A listing is a loop that takes the selected documents one at a time, in an order the store chooses. It returns the messages sent and how the stream ended. The proofs show:

- on a complete stream, every selected document is sent exactly once;
- on any stream, no other document is sent and no document is sent twice;
- a listing whose cursor breaks before position k, the position after the last document included, has sent exactly k messages and ends with Internal.

**Behaviour worth noting:**

- **Filtered listing with no criteria.** `_getBSONFilterByRequest` (`src/api_usr_invite/server.go:621-647`) returns the empty filter when neither criterion is given. That filter selects soft-deleted codes too, unlike the queries of the other handlers, which all carry `is_deleted = false` (`src/api_usr_invite/server.go:288`, `:327`, `:356`, `:391`). Outside the handlers, only the fixture clean's `DeleteMany` (`:469`) also reaches deleted codes. `InviteService.EmptyFilterSelectsDeleted` states this, and `ListFilteredInviteCodes` lists every document in that case.
- **No filtered listing for roles.** The role service defines no filtered listing handler, so none is modelled.
- **No unique role names.** The unique index on role names is never created: the call is commented out at `src/api_usr_role/server.go:173`. So `RoleService.RoleStore.CreateRole` accepts a name already in use.
- **Times outside the protobuf range.** The get, update and list handlers convert stored times with `ptypes.TimestampProto` and discard its error (`src/api_usr_invite/server.go:297-299`, `src/api_usr_role/server.go:293-294`). A time before year 1 or from year 10000 on therefore reads back as an absent field. `Common.ToProto` models this conversion and `InviteService.YearTenThousandReadsBackAbsent` shows such a time.
- **Create and update read validity times differently.** Create keeps only the seconds field of a requested time (`time.Unix(Seconds, 0)`, `src/api_usr_invite/server.go:252-253`), while update converts it with `AsTime`, which carries the nanoseconds field into the seconds (`:360-361`). A request time whose nanoseconds lie outside [0, 1e9) is therefore stored differently by the two, and on create it may even be stored later than requested. `InviteService.CreateVsUpdate` shows both.
- **Locked roles are not protected.** `is_locked` guards nothing: a locked role can be updated and deleted like any other. The contracts of `UpdateRole` and `DeleteRole` do not mention it.

## Model

| member | source | states |
|---|---|---|
| Common.WholeSeconds | src/api_usr_invite/server.go:252-253 | the creation handler keeps the seconds field of a requested validity time and drops its nanoseconds field; for a normalised request time that is the whole second at or before it, less than one second earlier, and a time without nanoseconds is unchanged |
| Common.AddSeconds | src/api_usr_invite/server.go:601-602 | adding n seconds moves the instant by exactly n times 10^9 nanoseconds and keeps a normalised time normalised |
| Common.AsTime | src/api_usr_invite/server.go:360-361 | an absent protobuf timestamp converts to the Unix epoch; a present one converts to the same instant with its nanoseconds brought into [0, 1e9) and carried into the seconds, and a normalised one to itself |
| Common.AsTimeCarries | src/api_usr_invite/server.go:360-361 | 10 s plus 2e9 ns converts to 12 s, 10 s minus 1 ns to 9 s plus 999999999 ns, and an absent time to the epoch |
| Common.ToProto | src/api_usr_invite/server.go:297-299 | a time converts exactly when it lies between year 1 and year 9999 with normalised nanoseconds, and a converted time reads back through AsTime as the same time |
| Common.ProtoRangeEdges | src/api_usr_role/server.go:293-294 | Go's zero time and the epoch convert; 253402300800 s does not, one nanosecond before it does, and one second before Go's zero time does not |
| Common.GetVersion | src/api_usr_invite/server.go:237-241 | the version probe answers "v" followed by the service version, that is "v1.0.0" |
| ObjectIds.DigitValue | src/api_usr_invite/server.go:281 | a hexadecimal digit of either case has a value below 16 (the values themselves are stated by DigitRoundTrip and UpperDigit) |
| ObjectIds.UpperDigit | src/api_usr_invite/server.go:281 | the upper-case digits 'A' to 'F' read as 10 to 15 and print back as 'a' to 'f' |
| ObjectIds.LowerDigit | src/api_usr_invite/server.go:303 | the lower-case form of a digit is canonical and has the same value: an upper-case letter becomes its lower-case letter, any other digit stays |
| ObjectIds.DigitChar | src/api_usr_invite/server.go:303 | the canonical digits of 0 to 15 are '0' to '9' then 'a' to 'f' |
| ObjectIds.Hex | src/api_usr_invite/server.go:270 | the text of an id has 24 characters, each a lower-case hexadecimal digit |
| ObjectIds.ParseHex | src/api_usr_invite/server.go:281-285 | an id parses exactly when the text is 24 hexadecimal digits of either case |
| ObjectIds.DigitRoundTrip | src/api_usr_invite/server.go:303 | each canonical digit reads back as its own value |
| ObjectIds.ParseHexOfHex | src/api_usr_invite/server.go:303 | parsing the text of an id gives back that id |
| ObjectIds.HexInjective | src/api_usr_invite/server.go:408 | distinct ids have distinct texts |
| ObjectIds.HexOfParseHex | src/api_usr_invite/server.go:281-303 | a parsed id prints back as the lower-case form of the text it came from |
| ObjectIds.NotAnIdIsRejected | src/api_usr_invite/server.go:281-285 | a malformed or empty id is rejected |
| InviteService.CreateThenGet | src/api_usr_invite/server.go:243-314 | the stored code keeps the caller's is_test, is_deleted and is_fixture, the server's creation time and no deletion or update time; it is visible exactly when not created deleted; a get returns its id, code and role, each validity time as the seconds field requested with zero nanoseconds (absent when out of protobuf range) and the creation time |
| InviteService.YearTenThousandReadsBackAbsent | src/api_usr_invite/server.go:243-314 | a code created valid from 253402300800 s stores that time, but a get returns no valid_from |
| InviteService.CreateVsUpdate | src/api_usr_invite/server.go:252-253 | a request time of 10 s plus 1.5e9 ns is created as 10 s but updated to 11.5 s, and 10 s minus 0.5e9 ns is created as 10 s, later than requested, but updated to 9.5 s |
| InviteService.UpdateThenGet | src/api_usr_invite/server.go:355-383 | for any request, the update response and a later get show the code and role just written and each validity time as the protobuf form of its normalised request time; an absent time reads back as the epoch and an in-range one as itself |
| InviteService.UpdateCarriesNanos | src/api_usr_invite/server.go:355-383 | an update with valid_from 10 s plus 2e9 ns stores and answers 12 s |
| InviteService.NewInviteDoc | src/api_usr_invite/server.go:249-258 | the inserted record copies code, role and the three flags, keeps the seconds field of each validity time with zero nanoseconds, carries created_at = now and no deletion or update time, so it is visible exactly when not requested deleted |
| InviteService.GetResponse | src/api_usr_invite/server.go:296-311 | the get response carries the text of the id (which parses back to it), code, role, is_fixture and the three times, each present exactly when in protobuf range; it never carries the deletion state or is_test |
| InviteService.SoftDeleted | src/api_usr_invite/server.go:326-331 | a soft-deleted code is hidden, with deleted_at = now, and no other field changes |
| InviteService.UpdatedDoc | src/api_usr_invite/server.go:355-363 | an update writes code, role, both validity times as AsTime reads them and updated_at = now; the flags, created_at and deleted_at stay, so visibility is unchanged |
| InviteService.UpdateResponse | src/api_usr_invite/server.go:372-383 | the update response carries the id's text, code, role and the validity window in protobuf form, and nothing else |
| InviteService.ListedInvite | src/api_usr_invite/server.go:403-413 | a listed message carries the id's text, code, role and the validity window in protobuf form, and nothing else; the filtered listing builds the same message at server.go:442-452 |
| InviteService.Matches | src/api_usr_invite/server.go:626-646 | a document matches a filter when every named field has the given value; the empty filter matches every document |
| InviteService.MatchesUnion | src/api_usr_invite/server.go:626-646 | a filter made of parts on distinct fields matches exactly when every part does, since a bson.M filter is a conjunction |
| InviteService.FixtureDoc | src/api_usr_invite/server.go:597-619 | a fixture code is a visible non-test fixture for its role, created at the draw's time, valid from the drawn offset after creation for exactly 8760 hours |
| InviteService.FilterByRequest | src/api_usr_invite/server.go:621-647 | a criterion is in the filter exactly when it is non-empty, with its value; is_deleted = false is in it exactly when some criterion is given |
| InviteService.FilterSelects | src/api_usr_invite/server.go:621-647 | the built filter selects a code exactly when it matches every given criterion and, if any criterion is given, is not deleted |
| InviteService.EmptyFilterSelectsDeleted | src/api_usr_invite/server.go:621-647 | with no criterion every code is selected, deleted ones included, unlike the is_deleted = false query |
| InviteService.VisibleFilterSelectsVisible | src/api_usr_invite/server.go:391 | the query of ListInviteCodes selects exactly the visible codes |
| InviteService.RepeatMultiset | src/api_usr_invite/server.go:492-496 | n repetitions of a role hold that role n times |
| InviteService.FixtureRoleCounts | src/api_usr_invite/server.go:479-523 | seeding inserts 117 codes: 10 admin, 3 director, 99 teacher and 5 viewer |
| InviteService.SeededContents | src/api_usr_invite/server.go:479-523 | after n accepted inserts the collection holds exactly the first n fixtures, each under its own id |
| InviteService.SeededFreshness | src/api_usr_invite/server.go:604-615 | the next fixture insert succeeds exactly when the draw is accepted (no store failure, id not used before) |
| InviteService.InviteCodeStore.constructor | src/api_usr_invite/server.go:60-61 | a store starts with the given collection |
| InviteService.InviteCodeStore.CreateInviteCode | src/api_usr_invite/server.go:243-274 | the insert succeeds exactly when the store accepts it and the id is new; on success exactly one document is added and the request is returned with the new id; otherwise Internal and nothing changes |
| InviteService.InviteCodeStore.GetInviteCode | src/api_usr_invite/server.go:276-314 | a malformed id is InvalidArgument; a visible code is returned with its stored fields; a missing, deleted or unreadable one is NotFound |
| InviteService.InviteCodeStore.DeleteInviteCode | src/api_usr_invite/server.go:316-342 | a malformed id is InvalidArgument; a visible code is soft-deleted with success; otherwise NotFound and nothing changes |
| InviteService.InviteCodeStore.UpdateInviteCode | src/api_usr_invite/server.go:344-384 | a malformed id is InvalidArgument; a visible code gets the new fields and is returned as updated; otherwise NotFound and nothing changes |
| InviteService.InviteCodeStore.StreamSelected | src/api_usr_invite/server.go:386-422 | every message shows a selected document; ids are distinct; a complete stream sends every selected id; Find failure, decode failure and cursor failure give Internal, Unavailable and Internal after exactly the messages sent before them, a cursor error after the last document included |
| InviteService.InviteCodeStore.ListedAll | src/api_usr_invite/server.go:397-416 | a listing that visited every selected id sent the text of each |
| InviteService.InviteCodeStore.ListedDistinct | src/api_usr_invite/server.go:406-415 | messages built from distinct selected ids name selected documents and carry distinct ids |
| InviteService.InviteCodeStore.ListInviteCodes | src/api_usr_invite/server.go:386-422 | each visible code once and no deleted one, with the same failure cases, a cursor error after the last code included |
| InviteService.InviteCodeStore.ListFilteredInviteCodes | src/api_usr_invite/server.go:424-461 | each code the built filter selects once; with no criterion, every stored code; the same failure cases, a cursor error after the last code included |
| InviteService.InviteCodeStore.FixtureClean | src/api_usr_invite/server.go:467-477 | the clean empties the collection, or on failure leaves it as it was |
| InviteService.InviteCodeStore.GenUserInviteCode | src/api_usr_invite/server.go:597-619 | one fixture code is inserted exactly when the store accepts it and the id is new |
| InviteService.InviteCodeStore.GenUserInviteCodes | src/api_usr_invite/server.go:492-496 | one counted loop inserts the next count fixtures of a role, stopping at the first refused insert |
| InviteService.InviteCodeStore.FixtureLoadInviteCodes | src/api_usr_invite/server.go:479-523 | seeding leaves exactly the fixtures inserted before the first refused insert, and all 117 when none is refused |
| InviteService.DeleteTwice | src/api_usr_invite/server.go:316-342 | of two deletes of the same valid id the second is NotFound |
| InviteService.CreateThenGetById | src/api_usr_invite/server.go:243-314 | a code created and fetched by the returned id is found with the caller's code, unless created deleted |
| RoleService.CreateThenGet | src/api_usr_role/server.go:242-312 | a created role reads back with the caller's fields and flags, the protobuf form of the server's creation time (itself when in range) and Go's zero time as update time |
| RoleService.UpdateThenGet | src/api_usr_role/server.go:349-378 | the update response and a later get show the five fields just written and the protobuf form of the update time (itself when in range); the get keeps the creation time and lock |
| RoleService.NewRoleDoc | src/api_usr_role/server.go:246-256 | the inserted record copies the five descriptive fields and the three flags, carries created_at = now, Go's zero time as updated_at and no deletion time, so it is visible exactly when not requested deleted |
| RoleService.GetResponse | src/api_usr_role/server.go:293-309 | the get response carries the id's text, the five descriptive fields, is_fixture, is_locked and both times, each present exactly when in protobuf range; never the deletion state |
| RoleService.SoftDeleted | src/api_usr_role/server.go:322-327 | a soft-deleted role is hidden, with deleted_at = now, and no other field changes |
| RoleService.UpdatedDoc | src/api_usr_role/server.go:349-358 | an update writes the five descriptive fields and updated_at = now; the flags, is_locked included, created_at and deleted_at stay |
| RoleService.UpdateResponse | src/api_usr_role/server.go:367-378 | the update response carries the id's text, the five descriptive fields and updated_at in protobuf form, no creation time and no flags |
| RoleService.ListedRole | src/api_usr_role/server.go:396-409 | a listed role carries the id's text, the five descriptive fields and both times in protobuf form, and no flags |
| RoleService.FixtureDoc | src/api_usr_role/server.go:525-536 | a fixture role is a visible locked fixture with the given name, handle, icon and colour, described as "auto-generated role [name] using handle [handle]", created and updated at the given time |
| RoleService.FixtureDocShape | src/api_usr_role/server.go:436-465 | the four fixture roles are visible locked fixtures with the given names and colours, described by name and handle |
| RoleService.SeededContents | src/api_usr_role/server.go:436-465 | after n accepted inserts the collection holds exactly the first n fixture roles, each under its own id |
| RoleService.SeededFreshness | src/api_usr_role/server.go:523-540 | the next fixture insert succeeds exactly when the draw is accepted |
| RoleService.SeededRoles | src/api_usr_role/server.go:523-544 | after n accepted inserts there are n roles, all visible and locked fixtures, named as the first n fixture roles |
| RoleService.RoleStore.constructor | src/api_usr_role/server.go:60 | a store starts with the given collection |
| RoleService.RoleStore.CreateRole | src/api_usr_role/server.go:242-272 | the insert succeeds exactly when the store accepts it and the id is new, whatever the name; on success exactly one document is added; otherwise Internal and nothing changes |
| RoleService.RoleStore.GetRole | src/api_usr_role/server.go:274-312 | a malformed id is InvalidArgument; a visible role is returned with its stored fields; otherwise NotFound |
| RoleService.RoleStore.DeleteRole | src/api_usr_role/server.go:314-338 | a malformed id is InvalidArgument; a visible role, locked or not, is soft-deleted; otherwise NotFound and nothing changes |
| RoleService.RoleStore.UpdateRole | src/api_usr_role/server.go:340-379 | a malformed id is InvalidArgument; a visible role, locked or not, gets the new fields and is returned as updated; otherwise NotFound and nothing changes |
| RoleService.RoleStore.ListRoles | src/api_usr_role/server.go:381-418 | each visible role once and no deleted one; Find failure, decode failure and cursor failure give Internal, Unavailable and Internal after exactly the messages sent before them, a cursor error after the last role included |
| RoleService.RoleStore.ListedDistinct | src/api_usr_role/server.go:399-410 | messages built from distinct visible ids name visible roles and carry distinct ids |
| RoleService.RoleStore.ListedAll | src/api_usr_role/server.go:390-411 | a listing that visited every visible id sent the text of each |
| RoleService.RoleStore.FixtureClean | src/api_usr_role/server.go:424-434 | the clean empties the collection, or on failure leaves it as it was |
| RoleService.RoleStore.GenUserRole | src/api_usr_role/server.go:523-544 | one fixture role is inserted exactly when the store accepts it and the id is new |
| RoleService.RoleStore.GenFixture | src/api_usr_role/server.go:442-463 | the k-th fixture insert extends the seeded collection by fixture k exactly when its draw is accepted |
| RoleService.RoleStore.FixtureLoadUserRoles | src/api_usr_role/server.go:436-465 | seeding leaves exactly the roles inserted before the first refused insert, and all four when none is refused |
| RoleService.DeleteTwice | src/api_usr_role/server.go:314-338 | of two deletes of the same valid id the second is NotFound |

## Left out

- gRPC plumbing (server registration, reflection, stream Send errors, which the source ignores), the health check (`Check`, `Watch`), process bootstrap (`init`, `main`, `run`, the signal loop, `.env` loading) and the database connection helpers: these are transport and start-up, not the services' logic.
- `_handleSimLoadLatency` and the extra-latency signal: they only delay replies.
- `mongoDbFixtureCreateIndexes` and `mongoDbFixtureHandleFatal`: index creation is not modelled. A duplicate invite code refused by the unique `meta_code` index after seeding is covered only by the insert-failure parameter.
- `_genUserInviteCodeULID`, `time.Now` and `rand.Float32`: the code, the time and the offset are parameters of each call.
- InviteService.FixtureDraw: the random validity offset is any whole number of seconds. The source's range of 0 to 59 seconds is not constrained.
- RoleService.FixtureDoc: `_genUserRole` reads the clock twice, and the model uses one instant for both created_at and updated_at.
- BSON stores dates at millisecond precision. The model keeps the times it is given.
- Integer width: `Timestamp.seconds` and `Timestamp.nanos` are unbounded. On the wire they are int64 and int32, a Go time converts seconds and nanoseconds as int64, and BSON stores int64 milliseconds, so a time whose seconds exceed about 9.2e15 in magnitude wraps on storage. A wrapped time can then read back present where the model says it is absent.
- The invite update stores `updated_at` as a protobuf message (`ptypes.TimestampNow()`, `src/api_usr_invite/server.go:362`) rather than a Go time. No handler reads it back, and the model stores it as a `Timestamp`.
- InviteService.InviteCodeStore.CreateInviteCode: a request without `meta_valid_from` or `meta_valid_to` makes the source dereference a nil timestamp and panic. The model requires both to be present instead of modelling the panic.
- A create request without a message at all is not modelled: a request message is always present. In the source the invite handler panics on the nil validity times (`src/api_usr_invite/server.go:252`) before anything is inserted. The role handler inserts a role with empty descriptive fields and flags and `created_at` set to now (`src/api_usr_role/server.go:246-259`) and only then panics when it sets the id (`:268`), so a default role stays stored; the model does not capture that stored role.
- Concurrency between handlers: each handler call is one atomic step on the collection.
- The text form of object ids is a concrete lower-case hexadecimal codec standing in for the driver's `ObjectIDFromHex` and `Hex`.
