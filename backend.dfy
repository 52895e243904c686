/**
 * The backend's state and endpoints: the user registry (fake_users_db),
 * the upload directory, register, login, the bearer-token gate that
 * guards upload and listing, and the two protected endpoints.
 */
module Backend {
  import opened Http
  import opened Security
  import opened Storage

  /** A record of fake_users_db. */
  datatype User = User(username: string, hashedPassword: string)

  /** The body login returns. */
  datatype TokenResponse = TokenResponse(accessToken: Token, tokenType: string)

  /** The body upload_file returns. */
  datatype UploadInfo = UploadInfo(info: string, user: string)

  const Registered: string := "User registered successfully"
  const UsernameTaken: HttpError := HttpError(BadRequest, "Username already registered")
  const IncorrectLogin: HttpError := HttpError(Unauthorized, "Incorrect username or password")
  const CouldNotValidate: HttpError := HttpError(Unauthorized, "Could not validate credentials")
  /** What the bearer-token scheme raises when the request carries no token. */
  const NotAuthenticated: HttpError := HttpError(Unauthorized, "Not authenticated")

  predicate NoDuplicates<T(==)>(s: seq<T>)
  {
    forall i, j :: 0 <= i < j < |s| ==> s[i] != s[j]
  }

  /** `entries` reports each file of `Listing(files, username)` exactly once, in some order. */
  ghost predicate ListsExactly(entries: seq<FileEntry>, files: Disk, username: string)
  {
    (forall e :: e in entries <==> e in Listing(files, username)) && NoDuplicates(entries)
  }

  class Server {
    /** fake_users_db: username to record. */
    var users: map<string, User>
    /** The contents of UPLOAD_DIR. */
    var files: Disk
    /** SECRET_KEY, fixed for the life of the process. */
    const secret: string
    const hasher: Hasher
    const sign: Signer

    /** Every record is filed under its own username. */
    ghost predicate Valid()
      reads this
    {
      forall u :: u in users ==> users[u].username == u
    }

    /** A fresh process: no users yet, and whatever the upload directory already holds. */
    constructor (secret: string, hasher: Hasher, sign: Signer, disk: Disk)
      ensures Valid()
      ensures users == map[] && files == disk
      ensures this.secret == secret && this.hasher == hasher && this.sign == sign
    {
      this.secret := secret;
      this.hasher := hasher;
      this.sign := sign;
      users := map[];
      files := disk;
    }

    /**
     * get_current_user: the bearer token resolves to a registered user, or
     * the request is refused with 401, the same error whatever check failed.
     */
    function GetCurrentUser(bearer: Option<Token>, now: int): (r: Result<User>)
      reads this
      requires Valid()
      ensures r.Ok? <==>
        && bearer.Some?
        && Signed(secret, sign, bearer.value)
        && now < bearer.value.exp
        && "sub" in bearer.value.claims
        && bearer.value.claims["sub"] in users
      ensures r.Ok? ==>
        r.value == users[bearer.value.claims["sub"]] && r.value.username == bearer.value.claims["sub"]
      ensures r.Err? ==> r.error == if bearer.None? then NotAuthenticated else CouldNotValidate
    {
      if bearer.None? then Err(NotAuthenticated)
      else match Decode(secret, sign, bearer.value, now)
        case Rejected(_) => Err(CouldNotValidate)
        case Payload(claims) =>
          if "sub" !in claims then Err(CouldNotValidate)
          else if claims["sub"] !in users then Err(CouldNotValidate)
          else Ok(users[claims["sub"]])
    }

    /** register: a new username gets a record with the salted hash of its password. */
    method Register(username: string, password: string, salt: Salt) returns (r: Result<string>)
      requires Valid()
      modifies this`users
      ensures Valid()
      ensures old(username in users) ==> r == Err(UsernameTaken) && users == old(users)
      ensures old(username !in users) ==>
        r == Ok(Registered) && users == old(users)[username := User(username, hasher.hash(password, salt))]
    {
      if username in users {
        return Err(UsernameTaken);
      }
      var hashedPassword := hasher.hash(password, salt);
      users := users[username := User(username, hashedPassword)];
      r := Ok(Registered);
    }

    /**
     * login: known user and matching password give a bearer token for that
     * user with the default lifetime; an unknown user and a wrong password
     * get the same 401.
     */
    method Login(username: string, password: string, now: int) returns (r: Result<TokenResponse>)
      requires Valid()
      ensures r.Ok? <==> username in users && hasher.verify(password, users[username].hashedPassword)
      ensures r.Err? ==> r.error == IncorrectLogin
      ensures r.Ok? ==>
        && r.value.tokenType == "bearer"
        && r.value.accessToken.claims == map["sub" := username]
        && r.value.accessToken.exp == now + DefaultLifetime
        && Signed(secret, sign, r.value.accessToken)
    {
      if username !in users || !hasher.verify(password, users[username].hashedPassword) {
        return Err(IncorrectLogin);
      }
      var user := users[username];
      var accessToken := CreateAccessToken(secret, sign, map["sub" := user.username], None, now);
      assert accessToken.claims.Keys == {"sub"};
      r := Ok(TokenResponse(accessToken, "bearer"));
    }

    /**
     * upload_file behind get_current_user: the bytes are stored under the
     * token owner's storage name, replacing earlier bytes there.
     */
    method UploadFile(bearer: Option<Token>, now: int, filename: string, content: seq<byte>)
      returns (r: Result<UploadInfo>)
      requires Valid()
      modifies this`files
      ensures Valid()
      ensures r.Ok? <==> GetCurrentUser(bearer, now).Ok?
      ensures r.Err? ==> r.error == GetCurrentUser(bearer, now).error && files == old(files)
      ensures r.Ok? ==>
        var owner := GetCurrentUser(bearer, now).value.username;
        && files == Store(old(files), owner, filename, content)
        && r.value == UploadInfo("File '" + filename + "' saved.", owner)
    {
      var currentUser := GetCurrentUser(bearer, now);
      if currentUser.Err? {
        return Err(currentUser.error);
      }
      var username := currentUser.value.username;
      files := files[StorageName(username, filename) := content];
      r := Ok(UploadInfo("File '" + filename + "' saved.", username));
    }

    /**
     * list_files behind get_current_user: one entry, with the owner prefix
     * stripped and the size in bytes, for each stored name that starts with
     * the owner's prefix. The directory is walked in an unspecified order.
     */
    method ListFiles(bearer: Option<Token>, now: int) returns (r: Result<seq<FileEntry>>)
      requires Valid()
      ensures r.Ok? <==> GetCurrentUser(bearer, now).Ok?
      ensures r.Err? ==> r.error == GetCurrentUser(bearer, now).error
      ensures r.Ok? ==> ListsExactly(r.value, files, GetCurrentUser(bearer, now).value.username)
    {
      var currentUser := GetCurrentUser(bearer, now);
      if currentUser.Err? {
        return Err(currentUser.error);
      }
      var username := currentUser.value.username;
      var entries: seq<FileEntry> := [];
      var pending := files.Keys;
      while pending != {}
        invariant pending <= files.Keys
        invariant forall e :: e in entries <==> e in ListingWithin(files, username, files.Keys - pending)
        invariant NoDuplicates(entries)
        decreases pending
      {
        var name :| name in pending;
        ghost var visited := files.Keys - pending;
        ListingWithinAdd(files, username, visited, name);
        if StartsWith(name, OwnerPrefix(username)) {
          var size := |files[name]|;
          var originalName := name[|username| + 1..];
          ListingWithinSource(files, username, visited, name);
          entries := entries + [FileEntry(originalName, size)];
        }
        pending := pending - {name};
        assert files.Keys - pending == visited + {name};
      }
      assert files.Keys - pending == files.Keys;
      r := Ok(entries);
    }
  }

  /** The first two elements of a listing, when present, are among its entries. */
  lemma LeadingEntriesAreMembers(s: seq<FileEntry>)
    ensures |s| > 0 ==> s[0] in s
    ensures |s| > 1 ==> s[1] in s
  {
  }

  /** One entry and no duplicates: the listing is exactly that entry. */
  lemma SingleListing(entries: seq<FileEntry>, e: FileEntry)
    requires (forall x :: x in entries <==> x == e) && NoDuplicates(entries)
    ensures entries == [e]
  {
    assert e in entries;
    LeadingEntriesAreMembers(entries);
  }

  lemma EmptyListing(entries: seq<FileEntry>)
    requires forall x :: x !in entries
    ensures entries == []
  {
    LeadingEntriesAreMembers(entries);
  }

  /**
   * The backend smoke script: register testuser, log in, upload without a
   * token (refused with 401), then upload with the token (accepted).
   */
  method SmokeTest(secret: string, hasher: Hasher, sign: Signer, disk: Disk, salt: Salt, now: int)
    returns (registered: Result<string>, login: Result<TokenResponse>,
             anonymous: Result<UploadInfo>, authorized: Result<UploadInfo>)
    requires Sound(hasher)
    ensures registered == Ok(Registered)
    ensures login.Ok? && login.value.tokenType == "bearer"
    ensures anonymous == Err(NotAuthenticated)
    ensures authorized == Ok(UploadInfo("File 'hello.txt' saved.", "testuser"))
  {
    var server := new Server(secret, hasher, sign, disk);
    registered := server.Register("testuser", "secret", salt);
    assert server.users["testuser"].hashedPassword == hasher.hash("secret", salt);
    HashThenVerify(hasher, "secret", salt);
    login := server.Login("testuser", "secret", now);
    assert login.Ok?;
    anonymous := server.UploadFile(None, now, "hello.txt", [104, 105]);
    authorized := server.UploadFile(Some(login.value.accessToken), now, "hello.txt", [104, 105]);
    assert "File '" + "hello.txt" + "' saved." == "File 'hello.txt' saved.";
  }

  /**
   * Two users on an empty upload directory: alice uploads a 10-byte
   * notes.txt; her listing is that one file and bob's listing is empty.
   */
  method TwoUserScenario(secret: string, hasher: Hasher, sign: Signer, saltA: Salt, saltB: Salt,
                         content: seq<byte>, now: int)
    returns (aliceFiles: Result<seq<FileEntry>>, bobFiles: Result<seq<FileEntry>>)
    requires Sound(hasher) && |content| == 10
    ensures aliceFiles == Ok([FileEntry("notes.txt", 10)])
    ensures bobFiles == Ok([])
  {
    var server := new Server(secret, hasher, sign, map[]);
    var _ := server.Register("alice", "secret1", saltA);
    var _ := server.Register("bob", "secret2", saltB);
    var alice := server.Login("alice", "secret1", now);
    var bob := server.Login("bob", "secret2", now);
    var aliceToken := Some(alice.value.accessToken);
    var bobToken := Some(bob.value.accessToken);
    var _ := server.UploadFile(aliceToken, now, "notes.txt", content);
    ListingAfterStore(map[], "alice", "notes.txt", content);
    UploadKeepsOtherListings(map[], "alice", "notes.txt", content, "bob");
    aliceFiles := server.ListFiles(aliceToken, now);
    SingleListing(aliceFiles.value, FileEntry("notes.txt", 10));
    bobFiles := server.ListFiles(bobToken, now);
    EmptyListing(bobFiles.value);
  }

  /**
   * On any state where the username is not yet taken, registering it and
   * logging in with the same password yields a bearer token for that user,
   * which the gate accepts until its expiry and refuses from then on.
   */
  method RegisterThenLogin(server: Server, username: string, password: string, salt: Salt, now: int)
    returns (login: Result<TokenResponse>)
    requires server.Valid() && Sound(server.hasher) && username !in server.users
    modifies server
    ensures server.Valid()
    ensures username in server.users && server.users[username].username == username
    ensures login.Ok? && login.value.tokenType == "bearer"
    ensures login.value.accessToken.claims == map["sub" := username]
    ensures forall t :: now <= t < now + DefaultLifetime ==>
      server.GetCurrentUser(Some(login.value.accessToken), t) == Ok(server.users[username])
    ensures forall t :: t >= now + DefaultLifetime ==>
      server.GetCurrentUser(Some(login.value.accessToken), t) == Err(CouldNotValidate)
  {
    var _ := server.Register(username, password, salt);
    login := server.Login(username, password, now);
  }
}
