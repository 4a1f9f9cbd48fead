/** The profile API route: POST validates the body and upserts the single
    profile row (id 1); GET returns that row or 404. The `db.user` table is
    a map from id to row, held by a ProfileStore object.

    The schema's email and URL checks are the library's; they are the
    parameters `isEmail` and `isUrl`. Where a database call throws is the
    parameter `fault`. */
module ProfileRoute {
  import opened Common

  /** The only row the route ever reads or writes. */
  const ProfileId: int := 1

  /** A row of the user table. */
  datatype User = User(
    id: int,
    firstName: string,
    lastName: string,
    email: string,
    address: string,
    profilePhoto: string)

  /** The request body as `req.json()` sees it. */
  datatype RequestBody =
    | MalformedJson              // req.json() throws
    | OtherJson                  // valid JSON, but not an object of five strings
    | Fields(data: ProfileData)  // an object whose five fields are strings

  datatype ResponseBody = Text(text: string) | WithUser(message: string, user: User)

  /** A response: its status (200 unless one is given) and its body. */
  datatype Response = Response(status: int, body: ResponseBody)

  /** Which database call throws, if any. */
  datatype DbFault = NoFault | ReadFails | WriteFails

  /** `ProfileFormSchema`: three non-empty names and address, a valid email and a valid URL. */
  predicate SchemaValid(data: ProfileData, isEmail: string -> bool, isUrl: string -> bool) {
    && |data.firstName| >= 1
    && |data.lastName| >= 1
    && isEmail(data.email)
    && |data.address| >= 1
    && isUrl(data.profilePhoto)
  }

  /** `ProfileFormSchema.safeParse(data).success`. */
  predicate Validates(body: RequestBody, isEmail: string -> bool, isUrl: string -> bool) {
    body.Fields? && SchemaValid(body.data, isEmail, isUrl)
  }

  /** Row 1 holding the submitted fields. */
  function RowOf(data: ProfileData): User {
    User(ProfileId, data.firstName, data.lastName, data.email, data.address, data.profilePhoto)
  }

  /** The table after a successful POST. */
  function Upserted(users: map<int, User>, data: ProfileData): map<int, User> {
    users[ProfileId := RowOf(data)]
  }

  /** Every row is stored under its own id. */
  ghost predicate KeyedById(users: map<int, User>) {
    forall id :: id in users ==> users[id].id == id
  }

  /** After the upsert, row 1 holds exactly the submitted fields, whatever the
      table held before, and every other row is as it was. */
  lemma UpsertStoresSubmitted(users: map<int, User>, data: ProfileData)
    ensures var users' := Upserted(users, data);
      && ProfileId in users'
      && users'[ProfileId].firstName == data.firstName
      && users'[ProfileId].lastName == data.lastName
      && users'[ProfileId].email == data.email
      && users'[ProfileId].address == data.address
      && users'[ProfileId].profilePhoto == data.profilePhoto
      && users'.Keys == users.Keys + {ProfileId}
      && forall id :: id in users && id != ProfileId ==> users'[id] == users[id]
  {
  }

  /** Repeating the same POST leaves the table unchanged. */
  lemma UpsertIdempotent(users: map<int, User>, data: ProfileData)
    ensures Upserted(Upserted(users, data), data) == Upserted(users, data)
  {
  }

  /** The upsert keeps every row under its own id. */
  lemma UpsertKeyedById(users: map<int, User>, data: ProfileData)
    requires KeyedById(users)
    ensures KeyedById(Upserted(users, data))
  {
  }

  /** The `db.user` table, as seen by the route. */
  class ProfileStore {
    var users: map<int, User>

    ghost predicate Valid()
      reads this
    {
      KeyedById(users)
    }

    constructor (rows: map<int, User>)
      requires KeyedById(rows)
      ensures Valid() && users == rows
    {
      users := rows;
    }

    /** POST /api/profile. A body `req.json()` cannot parse is a 500; a body
        the schema refuses is a 400 before the table is consulted; otherwise
        row 1 is read, then updated if present and created if not. A throw
        from the database is a 500 and leaves the table as it was. */
    method Post(body: RequestBody, isEmail: string -> bool, isUrl: string -> bool, fault: DbFault)
      returns (resp: Response)
      requires Valid()
      modifies this
      ensures Valid()
      ensures body.MalformedJson? ==>
                resp == Response(500, Text("Error saving profile")) && users == old(users)
      ensures !body.MalformedJson? && !Validates(body, isEmail, isUrl) ==>
                resp == Response(400, Text("Invalid data")) && users == old(users)
      ensures Validates(body, isEmail, isUrl) && fault != NoFault ==>
                resp == Response(500, Text("Error saving profile")) && users == old(users)
      ensures Validates(body, isEmail, isUrl) && fault == NoFault ==>
                && users == Upserted(old(users), body.data)
                && resp == Response(200, WithUser("Profile saved successfully", RowOf(body.data)))
    {
      if body.MalformedJson? {
        resp := Response(500, Text("Error saving profile"));
        return;
      }
      if !Validates(body, isEmail, isUrl) {
        resp := Response(400, Text("Invalid data"));
        return;
      }
      var data := body.data;
      if fault == ReadFails {
        resp := Response(500, Text("Error saving profile"));
        return;
      }
      var existingUser := if ProfileId in users then Some(users[ProfileId]) else None;
      var user: User;
      if existingUser.Some? {
        if fault == WriteFails {
          resp := Response(500, Text("Error saving profile"));
          return;
        }
        user := existingUser.value.(firstName := data.firstName, lastName := data.lastName,
                                    email := data.email, address := data.address,
                                    profilePhoto := data.profilePhoto);
        users := users[ProfileId := user];
      } else {
        if fault == WriteFails {
          resp := Response(500, Text("Error saving profile"));
          return;
        }
        user := User(ProfileId, data.firstName, data.lastName, data.email, data.address, data.profilePhoto);
        users := users[ProfileId := user];
      }
      resp := Response(200, WithUser("Profile saved successfully", user));
    }

    /** GET /api/profile: row 1, or 404 when there is none; a throw from the
        database is a 500. */
    method Get(fault: DbFault) returns (resp: Response)
      ensures fault == ReadFails ==> resp == Response(500, Text("Error fetching profile:"))
      ensures fault != ReadFails && ProfileId !in users ==> resp == Response(404, Text("User not found"))
      ensures fault != ReadFails && ProfileId in users ==>
                resp == Response(200, WithUser("Profile found", users[ProfileId]))
    {
      if fault == ReadFails {
        return Response(500, Text("Error fetching profile:"));
      }
      var user := if ProfileId in users then Some(users[ProfileId]) else None;
      if user.None? {
        resp := Response(404, Text("User not found"));
      } else {
        resp := Response(200, WithUser("Profile found", user.value));
      }
    }
  }
}
