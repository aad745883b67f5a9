/** The in-memory user registry (05_web_app/99_hw/redditclone/pkg/user/repo.go):
    a map from login to user. bcrypt hashing and comparison and JWT signing
    are parameters, as are the bytes each `crypto/rand` read yields (`None`
    for a failed read). A token is modelled by the claims it is signed for. */
module UserRepo {
  import opened Results
  import opened Hex

  /** A stored user; `password` is the bcrypt hash. */
  datatype User = User(login: string, id: string, password: seq<byte>)

  type Users = map<string, User>

  datatype UserError =
    | NotFoundUser
    | UserAlreadyExists
    | CantGenerateHashPassword
    | RandomReadFailed
    | SigningFailed

  /** What GenerateJWT is asked to sign: the login and a user ID. */
  datatype Claims = Claims(login: string, userId: string)

  /** The foreign collaborators: bcrypt's GenerateFromPassword (`None` on
      failure) and CompareHashAndPassword, and GenerateJWT (`None` on
      failure). */
  datatype Crypto = Crypto(
    hash: string -> Option<seq<byte>>,
    matches: (seq<byte>, string) -> bool,
    sign: Claims -> Option<string>)

  /** Every user is stored under its own login. */
  predicate Valid(users: Users) {
    forall l :: l in users ==> users[l].login == l
  }

  /** Authorize: an unknown login and a wrong password give the same
      ErrNotFoundUser; otherwise the token signed for the stored user's ID. */
  function Authorize(users: Users, login: string, pass: string, crypto: Crypto): (r: Result<string, UserError>)
    ensures login !in users ==> r == Err(NotFoundUser)
    ensures login in users && !crypto.matches(users[login].password, pass) ==> r == Err(NotFoundUser)
    ensures r.Ok? <==> login in users && crypto.matches(users[login].password, pass)
                       && crypto.sign(Claims(login, users[login].id)).Some?
    ensures r.Ok? ==> crypto.sign(Claims(login, users[login].id)) == Some(r.value)
    ensures (login in users && crypto.matches(users[login].password, pass)
             && crypto.sign(Claims(login, users[login].id)).None?) ==> r == Err(SigningFailed)
  {
    if login !in users then Err(NotFoundUser)
    else
      var u := users[login];
      if !crypto.matches(u.password, pass) then Err(NotFoundUser)
      else
        match crypto.sign(Claims(login, u.id))
        case None => Err(SigningFailed)
        case Some(token) => Ok(token)
  }

  /** Register as written: after storing the user under the hex of the first
      random read, it signs the token for the hex of a SECOND random read.
      The user stays stored when that read or the signing fails. */
  function RegisterAsWritten(users: Users, login: string, pass: string, crypto: Crypto,
                             rand1: Option<seq<byte>>, rand2: Option<seq<byte>>)
    : (r: (Users, Result<string, UserError>))
    ensures login in users ==> r == (users, Err(UserAlreadyExists))
    ensures login !in users && crypto.hash(pass).None? ==> r == (users, Err(CantGenerateHashPassword))
    ensures login !in users && crypto.hash(pass).Some? && rand1.None? ==> r == (users, Err(RandomReadFailed))
    ensures login !in users && crypto.hash(pass).Some? && rand1.Some? ==>
              && r.0.Keys == users.Keys + {login}
              && r.0[login] == User(login, HexEncode(rand1.value), crypto.hash(pass).value)
              && (forall l :: l in users ==> r.0[l] == users[l])
              && (rand2.None? ==> r.1 == Err(RandomReadFailed))
              && (rand2.Some? ==> (r.1.Ok? <==> crypto.sign(Claims(login, HexEncode(rand2.value))).Some?))
              && (rand2.Some? && crypto.sign(Claims(login, HexEncode(rand2.value))).None? ==> r.1 == Err(SigningFailed))
    ensures r.1.Ok? ==> rand2.Some? && crypto.sign(Claims(login, HexEncode(rand2.value))) == Some(r.1.value)
  {
    if login in users then (users, Err(UserAlreadyExists))
    else
      match crypto.hash(pass)
      case None => (users, Err(CantGenerateHashPassword))
      case Some(hashed) =>
        match rand1
        case None => (users, Err(RandomReadFailed))
        case Some(bytes) =>
          var stored := users[login := User(login, HexEncode(bytes), hashed)];
          match rand2
          case None => (stored, Err(RandomReadFailed))
          case Some(bytes2) =>
            match crypto.sign(Claims(login, HexEncode(bytes2)))
            case None => (stored, Err(SigningFailed))
            case Some(token) => (stored, Ok(token))
  }

  /** Register with the token signed for the ID just stored, as the later
      SQL-backed registry does. An existing login is ErrUserAlreadyExists
      with the map unchanged; success adds exactly one user, keyed by the
      login, holding the password hash. */
  function Register(users: Users, login: string, pass: string, crypto: Crypto, rand: Option<seq<byte>>)
    : (r: (Users, Result<string, UserError>))
    ensures login in users ==> r == (users, Err(UserAlreadyExists))
    ensures login !in users && crypto.hash(pass).None? ==> r == (users, Err(CantGenerateHashPassword))
    ensures login !in users && crypto.hash(pass).Some? && rand.None? ==> r == (users, Err(RandomReadFailed))
    ensures login !in users && crypto.hash(pass).Some? && rand.Some? ==>
              && r.0.Keys == users.Keys + {login}
              && r.0[login] == User(login, HexEncode(rand.value), crypto.hash(pass).value)
              && (forall l :: l in users ==> r.0[l] == users[l])
              && (r.1.Ok? <==> crypto.sign(Claims(login, HexEncode(rand.value))).Some?)
              && (crypto.sign(Claims(login, HexEncode(rand.value))).None? ==> r.1 == Err(SigningFailed))
    ensures r.1.Ok? ==> login in r.0 && crypto.sign(Claims(login, r.0[login].id)) == Some(r.1.value)
  {
    if login in users then (users, Err(UserAlreadyExists))
    else
      match crypto.hash(pass)
      case None => (users, Err(CantGenerateHashPassword))
      case Some(hashed) =>
        match rand
        case None => (users, Err(RandomReadFailed))
        case Some(bytes) =>
          var u := User(login, HexEncode(bytes), hashed);
          var stored := users[login := u];
          match crypto.sign(Claims(login, u.id))
          case None => (stored, Err(SigningFailed))
          case Some(token) => (stored, Ok(token))
  }

  lemma RegisterPreservesValid(users: Users, login: string, pass: string, crypto: Crypto, rand: Option<seq<byte>>)
    requires Valid(users)
    ensures Valid(Register(users, login, pass, crypto, rand).0)
  {
  }

  /** The written and the corrected registration store the same users:
      they differ only in the ID the token is signed for, and give the same
      answer whenever the second random read repeats the first. */
  lemma RegisterAsWrittenStoresAsRegister(users: Users, login: string, pass: string, crypto: Crypto,
                                          rand1: Option<seq<byte>>, rand2: Option<seq<byte>>)
    ensures RegisterAsWritten(users, login, pass, crypto, rand1, rand2).0 == Register(users, login, pass, crypto, rand1).0
    ensures rand2 == rand1 ==>
              RegisterAsWritten(users, login, pass, crypto, rand1, rand2) == Register(users, login, pass, crypto, rand1)
  {
  }

  /** With the corrected Register, a user who logs in with the password they
      registered with gets a token for the same claims as at registration. */
  lemma RegisterThenAuthorize(users: Users, login: string, pass: string, crypto: Crypto, rand: Option<seq<byte>>)
    requires forall h: seq<byte>, p: string :: crypto.hash(p) == Some(h) ==> crypto.matches(h, p)
    requires Register(users, login, pass, crypto, rand).1.Ok?
    ensures Authorize(Register(users, login, pass, crypto, rand).0, login, pass, crypto)
            == Register(users, login, pass, crypto, rand).1
  {
  }

  /** As written, the registration token names an ID no user is stored
      under: with a first 16-byte read of zeros and a second that ends in 1,
      the stored ID is 32 zero digits and the token (here a signer that
      writes out the user ID) is for 31 zero digits and a 1, while logging in
      afterwards gives a token for the stored ID. */
  lemma RegisterAsWrittenSignsOtherId()
    ensures var crypto := Crypto((p: string) => Some([7 as byte]),
                                 (h: seq<byte>, p: string) => true,
                                 (c: Claims) => Some(c.userId));
            var r := RegisterAsWritten(map[], "alice", "pw", crypto,
                                       Some(ZeroBytes(16)), Some(ZeroBytes(16)[15 := 1]));
            && r.0["alice"].id == ZeroDigits(32)
            && r.1 == Ok(ZeroDigits(31) + "1")
            && Authorize(r.0, "alice", "pw", crypto) == Ok(ZeroDigits(32))
  {
    HexOfZeros(16);
    HexZeroIdEndingInOne();
  }

  /** The hex of fifteen zero bytes and a one. */
  lemma HexZeroIdEndingInOne()
    ensures HexEncode(ZeroBytes(16)[15 := 1]) == ZeroDigits(31) + "1"
  {
    ZeroBytesEndingInOne();
    HexEncodeAppend(ZeroBytes(15), [1 as byte]);
    HexOfZeros(15);
    HexOfOne();
    ZeroDigitsThenOne();
  }

  lemma ZeroBytesEndingInOne()
    ensures ZeroBytes(16)[15 := 1] == ZeroBytes(15) + [1 as byte]
  {
  }

  lemma HexOfOne()
    ensures HexEncode([1 as byte]) == "01"
  {
    assert HexEncode([1 as byte]) == [NibbleChar(0), NibbleChar(1)] + HexEncode([]);
  }

  lemma ZeroDigitsThenOne()
    ensures ZeroDigits(30) + "01" == ZeroDigits(31) + "1"
  {
  }
}
