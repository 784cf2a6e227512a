/** The persistent cache: cached users, and encrypted files (src/proto_cache.rs, src/crypto.rs). */
module ProtoCache {
  import opened Collections
  import opened Codec

  // ---- Encrypted files ----

  const SALT_SIZE := 16
  const NONCE_SIZE := 12

  type Bytes = seq<byte>

  datatype CryptoError = HashError | CipherError | IoError

  /** Key derivation and authenticated encryption are abstract. */
  datatype Crypto = Crypto(
    deriveKey: (string, Bytes) -> Option<Bytes>,
    seal: (Bytes, Bytes, Bytes) -> Option<Bytes>,
    open: (Bytes, Bytes, Bytes) -> Option<Bytes>)

  /** What was sealed opens again under the same key and nonce. */
  ghost predicate Opens(c: Crypto) {
    forall key, nonce, data :: c.seal(key, nonce, data).Some? ==>
      c.open(key, nonce, c.seal(key, nonce, data).value) == Some(data)
  }

  /** A ciphertext that is cut anywhere does not open: the cipher authenticates it. */
  ghost predicate DetectsCuts(c: Crypto) {
    forall key, nonce, data, n: nat ::
      c.seal(key, nonce, data).Some? && n < |c.seal(key, nonce, data).value| ==>
        c.open(key, nonce, c.seal(key, nonce, data).value[..n]).None?
  }

  class Reader {
    var rest: Bytes

    constructor (content: Bytes)
      ensures rest == content
    {
      rest := content;
    }

    method ReadExact(n: nat) returns (r: Option<Bytes>)
      modifies this
      ensures if n <= |old(rest)| then r == Some(old(rest)[..n]) && rest == old(rest)[n..] else r.None?
    {
      if |rest| < n {
        return None;
      }
      r := Some(rest[..n]);
      rest := rest[n..];
    }
  }

  /** The file contents: salt, nonce, ciphertext; salt and nonce are random and hence parameters. */
  method EncryptToFile(c: Crypto, passphrase: string, salt: Bytes, nonce: Bytes, data: Bytes)
    returns (r: Result<Bytes, CryptoError>)
    requires |salt| == SALT_SIZE && |nonce| == NONCE_SIZE
    ensures r == Encrypted(c, passphrase, salt, nonce, data)
    ensures var key := c.deriveKey(passphrase, salt);
      if key.None? then r == Err(HashError)
      else if c.seal(key.value, nonce, data).None? then r == Err(CipherError)
      else r.Ok? && r.value[..16] == salt && r.value[16..28] == nonce
           && r.value[28..] == c.seal(key.value, nonce, data).value
  {
    var key := c.deriveKey(passphrase, salt);
    if key.None? {
      return Err(HashError);
    }
    var ciphertext := c.seal(key.value, nonce, data);
    if ciphertext.None? {
      return Err(CipherError);
    }
    var encrypted := nonce;
    encrypted := encrypted + ciphertext.value;
    var result := salt;
    result := result + encrypted;
    assert result[16..28] == nonce && result[28..] == ciphertext.value;
    return Ok(result);
  }

  function Encrypted(c: Crypto, passphrase: string, salt: Bytes, nonce: Bytes, data: Bytes)
    : Result<Bytes, CryptoError>
  {
    match c.deriveKey(passphrase, salt)
    case None => Err(HashError)
    case Some(key) =>
      match c.seal(key, nonce, data)
      case None => Err(CipherError)
      case Some(ciphertext) => Ok(salt + (nonce + ciphertext))
  }

  method DecryptFile(c: Crypto, passphrase: string, content: Bytes) returns (r: Result<Bytes, CryptoError>)
    ensures r == Decrypted(c, passphrase, content)
    ensures |content| < 16 ==> r == Err(IoError)
    ensures 16 <= |content| ==>
      var key := c.deriveKey(passphrase, content[..16]);
      if key.None? then r == Err(HashError)
      else if |content| < 28 then r == Err(IoError)
      else match c.open(key.value, content[16..28], content[28..])
           case None => r == Err(CipherError)
           case Some(data) => r == Ok(data)
  {
    var reader := new Reader(content);
    var salt := reader.ReadExact(SALT_SIZE);
    if salt.None? {
      return Err(IoError);
    }
    var key := c.deriveKey(passphrase, salt.value);
    if key.None? {
      return Err(HashError);
    }
    var nonce := reader.ReadExact(NONCE_SIZE);
    if nonce.None? {
      return Err(IoError);
    }
    assert content[SALT_SIZE..][..NONCE_SIZE] == content[SALT_SIZE..SALT_SIZE + NONCE_SIZE];
    assert content[SALT_SIZE..][NONCE_SIZE..] == content[SALT_SIZE + NONCE_SIZE..];
    var data := c.open(key.value, nonce.value, reader.rest);
    return if data.Some? then Ok(data.value) else Err(CipherError);
  }

  function Decrypted(c: Crypto, passphrase: string, content: Bytes): Result<Bytes, CryptoError> {
    if |content| < SALT_SIZE then Err(IoError)
    else match c.deriveKey(passphrase, content[..SALT_SIZE])
         case None => Err(HashError)
         case Some(key) =>
           if |content| < SALT_SIZE + NONCE_SIZE then Err(IoError)
           else match c.open(key, content[SALT_SIZE..SALT_SIZE + NONCE_SIZE], content[SALT_SIZE + NONCE_SIZE..])
                case None => Err(CipherError)
                case Some(data) => Ok(data)
  }

  lemma EncryptionRoundTrip(c: Crypto, passphrase: string, salt: Bytes, nonce: Bytes, data: Bytes)
    requires Opens(c) && |salt| == SALT_SIZE && |nonce| == NONCE_SIZE
    requires Encrypted(c, passphrase, salt, nonce, data).Ok?
    ensures Decrypted(c, passphrase, Encrypted(c, passphrase, salt, nonce, data).value) == Ok(data)
  {
    var content := Encrypted(c, passphrase, salt, nonce, data).value;
    var ciphertext := c.seal(c.deriveKey(passphrase, salt).value, nonce, data).value;
    assert content[..SALT_SIZE] == salt;
    assert content[SALT_SIZE..SALT_SIZE + NONCE_SIZE] == nonce;
    assert content[SALT_SIZE + NONCE_SIZE..] == ciphertext;
  }

  /** A file that was cut anywhere cannot be read. */
  lemma CutUnreadable(c: Crypto, passphrase: string, salt: Bytes, nonce: Bytes, data: Bytes, n: nat)
    requires DetectsCuts(c) && |salt| == SALT_SIZE && |nonce| == NONCE_SIZE
    requires var content := Encrypted(c, passphrase, salt, nonce, data); content.Ok? && n < |content.value|
    ensures Decrypted(c, passphrase, Encrypted(c, passphrase, salt, nonce, data).value[..n]).Err?
  {
    var content := Encrypted(c, passphrase, salt, nonce, data).value;
    var ciphertext := c.seal(c.deriveKey(passphrase, salt).value, nonce, data).value;
    var cut := content[..n];
    if SALT_SIZE + NONCE_SIZE <= n {
      assert cut[..SALT_SIZE] == salt;
      assert cut[SALT_SIZE..SALT_SIZE + NONCE_SIZE] == nonce;
      assert cut[SALT_SIZE + NONCE_SIZE..] == ciphertext[..n - SALT_SIZE - NONCE_SIZE];
    }
  }

  // ---- The users list ----

  datatype User = User(id: string, profile: string)

  /** A change of a user: which user, and what it does to the cached value. */
  datatype UserChange = UserChange(userId: string, apply: User -> User)

  ghost predicate KeepsId(change: UserChange) {
    forall u :: change.apply(u).id == u.id
  }

  datatype UserOp = CacheUser(user: User) | UpdateUser(change: UserChange)

  ghost predicate UniqueUsers(users: seq<User>) {
    forall i, j :: 0 <= i < j < |users| ==> users[i].id != users[j].id
  }

  /** The list as a map; the first entry of an id counts. */
  function UsersMap(users: seq<User>): map<string, User> {
    if users == [] then map[] else UsersMap(users[1..])[users[0].id := users[0]]
  }

  /** The position of the first user with this id, or the length. */
  function FindUser(users: seq<User>, id: string): (k: nat)
    ensures k <= |users| && (k < |users| ==> users[k].id == id)
    ensures forall i :: 0 <= i < k ==> users[i].id != id
  {
    if users == [] || users[0].id == id then 0 else 1 + FindUser(users[1..], id)
  }

  lemma {:induction false} FoundIsMapped(users: seq<User>, id: string)
    ensures id in UsersMap(users) <==> FindUser(users, id) < |users|
    ensures id in UsersMap(users) ==> UsersMap(users)[id] == users[FindUser(users, id)]
  {
    if users == [] {
    } else {
      FoundIsMapped(users[1..], id);
    }
  }

  lemma {:induction false} AppendUser(users: seq<User>, user: User)
    requires FindUser(users, user.id) == |users|
    ensures UsersMap(users + [user]) == UsersMap(users)[user.id := user]
  {
    if users == [] {
      assert (users + [user])[1..] == [];
    } else {
      assert (users + [user])[1..] == users[1..] + [user];
      AppendUser(users[1..], user);
    }
  }

  lemma {:induction false} ReplaceUser(users: seq<User>, user: User)
    requires FindUser(users, user.id) < |users|
    ensures UsersMap(users[FindUser(users, user.id) := user]) == UsersMap(users)[user.id := user]
  {
    var k := FindUser(users, user.id);
    if users[0].id == user.id {
      assert users[k := user][1..] == users[1..];
    } else {
      assert users[k := user][1..] == users[1..][k - 1 := user];
      ReplaceUser(users[1..], user);
    }
  }

  /** The list after one operation. */
  function ApplyOp(users: Option<seq<User>>, op: UserOp): Option<seq<User>> {
    match op
    case CacheUser(user) =>
      var list := if users.Some? then users.value else [];
      var k := FindUser(list, user.id);
      Some(if k < |list| then list[k := user] else list + [user])
    case UpdateUser(change) =>
      if users.None? then None
      else
        var k := FindUser(users.value, change.userId);
        Some(if k < |users.value| then users.value[k := change.apply(users.value[k])] else users.value)
  }

  /** The same operation on a map. */
  function ApplyOpToMap(m: map<string, User>, op: UserOp): map<string, User> {
    match op
    case CacheUser(user) => m[user.id := user]
    case UpdateUser(change) =>
      if change.userId in m then m[change.userId := change.apply(m[change.userId])] else m
  }

  function Listed(users: Option<seq<User>>): seq<User> {
    if users.Some? then users.value else []
  }

  ghost predicate OpsKeepIds(ops: seq<UserOp>) {
    forall i :: 0 <= i < |ops| && ops[i].UpdateUser? ==> KeepsId(ops[i].change)
  }

  function Run(users: Option<seq<User>>, ops: seq<UserOp>): Option<seq<User>>
    decreases |ops|
  {
    if ops == [] then users else ApplyOp(Run(users, Front(ops)), Last(ops))
  }

  function RunOnMap(m: map<string, User>, ops: seq<UserOp>): map<string, User>
    decreases |ops|
  {
    if ops == [] then m else ApplyOpToMap(RunOnMap(m, Front(ops)), Last(ops))
  }

  lemma OpRefinesMap(users: Option<seq<User>>, op: UserOp)
    requires op.UpdateUser? ==> KeepsId(op.change)
    ensures UsersMap(Listed(ApplyOp(users, op))) == ApplyOpToMap(UsersMap(Listed(users)), op)
    ensures UniqueUsers(Listed(users)) ==> UniqueUsers(Listed(ApplyOp(users, op)))
  {
    var list := Listed(users);
    match op
    case CacheUser(user) =>
      if FindUser(list, user.id) < |list| {
        ReplaceUser(list, user);
      } else {
        AppendUser(list, user);
      }
    case UpdateUser(change) =>
      FoundIsMapped(list, change.userId);
      var k := FindUser(list, change.userId);
      if k < |list| {
        ReplaceUser(list, change.apply(list[k]));
      }
  }

  /** Over any run the list refines the map, and its ids stay unique. */
  lemma {:induction false} RunRefinesMap(users: Option<seq<User>>, ops: seq<UserOp>)
    requires OpsKeepIds(ops) && UniqueUsers(Listed(users))
    ensures UsersMap(Listed(Run(users, ops))) == RunOnMap(UsersMap(Listed(users)), ops)
    ensures UniqueUsers(Listed(Run(users, ops)))
    decreases |ops|
  {
    if ops == [] {
    } else {
      RunRefinesMap(users, Front(ops));
      OpRefinesMap(Run(users, Front(ops)), Last(ops));
    }
  }

  // ---- The cache ----

  datatype Info = Info(syncToken: Option<string>, userStatus: Option<string>)

  const DEFAULT_INFO := Info(None, None)

  /** The encodings in use; both, like the encryption, are abstract. */
  datatype Encodings = Encodings(
    users: MessageCodec<User>,
    serialize: Info -> Option<Bytes>,
    deserialize: Bytes -> Option<Info>)

  ghost predicate Faithful(e: Encodings) {
    && Lawful(e.users)
    && forall info :: e.serialize(info).Some? ==> e.deserialize(e.serialize(info).value) == Some(info)
  }

  datatype CacheError = CryptoFailure(crypto: CryptoError) | CodecFailure(codec: CodecError) | Serialization | Io

  /** Fresh random bytes of one encryption. */
  datatype Random = Random(salt: Bytes, nonce: Bytes) {
    predicate Sized() {
      |salt| == SALT_SIZE && |nonce| == NONCE_SIZE
    }
  }

  /** Writing a file truncates it first: if the write then fails, on a full disk for instance, the rest is missing. */
  datatype Disk = Works | Refuses | Cuts(kept: nat)

  datatype Outcome = Wrote | Failed | CutShort

  function Cut(content: Bytes, kept: nat): Bytes {
    if kept < |content| then content[..kept] else []
  }

  /** What becomes of writing the encrypted `data`. */
  function WriteOutcome(c: Crypto, passphrase: string, random: Random, data: Bytes, disk: Disk): Outcome {
    match Encrypted(c, passphrase, random.salt, random.nonce, data)
    case Err(_) => Failed
    case Ok(_) => match disk
                  case Works => Wrote
                  case Refuses => Failed
                  case Cuts(_) => CutShort
  }

  /** A file after encrypting `data` into it. */
  function FileAfter(file: Option<Bytes>, c: Crypto, passphrase: string, random: Random, data: Bytes, disk: Disk)
    : (Result<(), CacheError>, Option<Bytes>)
  {
    match Encrypted(c, passphrase, random.salt, random.nonce, data)
    case Err(e) => (Err(CryptoFailure(e)), file)
    case Ok(content) => Stored(file, content, disk)
  }

  function Stored(file: Option<Bytes>, content: Bytes, disk: Disk): (Result<(), CacheError>, Option<Bytes>) {
    match disk
    case Works => (Ok(()), Some(content))
    case Refuses => (Err(Io), file)
    case Cuts(kept) => (Err(Io), Some(Cut(content, kept)))
  }

  function FileContent(file: Option<Bytes>, c: Crypto, passphrase: string): Result<Bytes, CacheError> {
    match file
    case None => Err(Io)
    case Some(content) =>
      match Decrypted(c, passphrase, content)
      case Ok(data) => Ok(data)
      case Err(e) => Err(CryptoFailure(e))
  }

  function UsersInFile(file: Option<Bytes>, e: Encodings, c: Crypto, passphrase: string)
    : Result<seq<User>, CacheError>
  {
    match FileContent(file, c, passphrase)
    case Err(error) => Err(error)
    case Ok(data) =>
      match Decode(e.users, data)
      case Ok(users) => Ok(users)
      case Err(error) => Err(CodecFailure(error))
  }

  function InfoInFile(file: Option<Bytes>, e: Encodings, c: Crypto, passphrase: string): Result<Info, CacheError> {
    match FileContent(file, c, passphrase)
    case Err(error) => Err(error)
    case Ok(data) =>
      match e.deserialize(data)
      case Some(info) => Ok(info)
      case None => Err(Serialization)
  }

  /** What one file write stored is read back, and what it cut short is not. */
  lemma WrittenIsRead(file: Option<Bytes>, c: Crypto, passphrase: string, random: Random, data: Bytes, disk: Disk)
    requires Opens(c) && random.Sized()
    ensures var outcome, after := WriteOutcome(c, passphrase, random, data, disk),
                                  FileAfter(file, c, passphrase, random, data, disk);
      && (after.0.Ok? <==> outcome.Wrote?)
      && (outcome.Wrote? ==> FileContent(after.1, c, passphrase) == Ok(data))
      && (outcome.Failed? ==> after.1 == file)
      && (outcome.CutShort? && DetectsCuts(c) ==> FileContent(after.1, c, passphrase).Err?)
  {
    var encrypted := Encrypted(c, passphrase, random.salt, random.nonce, data);
    if encrypted.Ok? {
      EncryptionRoundTrip(c, passphrase, random.salt, random.nonce, data);
      if DetectsCuts(c) && disk.Cuts? {
        var kept := if disk.kept < |encrypted.value| then disk.kept else 0;
        assert Cut(encrypted.value, disk.kept) == encrypted.value[..kept];
        CutUnreadable(c, passphrase, random.salt, random.nonce, data, kept);
      }
    }
  }

  method WriteFile(file: Option<Bytes>, content: Bytes, disk: Disk)
    returns (r: Result<(), CacheError>, after: Option<Bytes>)
    ensures (r, after) == Stored(file, content, disk)
  {
    match disk
    case Works => r, after := Ok(()), Some(content);
    case Refuses => r, after := Err(Io), file;
    case Cuts(kept) => r, after := Err(Io), Some(Cut(content, kept));
  }

  class Cache {
    const encodings: Encodings
    const crypto: Crypto
    const passphrase: string

    var usersFile: Option<Bytes>
    var infoFile: Option<Bytes>
    var info: Info
    var cachedUsers: Option<seq<User>>

    /** A start on the files of an earlier run. */
    constructor (encodings: Encodings, crypto: Crypto, passphrase: string,
                 usersFile: Option<Bytes>, infoFile: Option<Bytes>)
      ensures this.encodings == encodings && this.crypto == crypto && this.passphrase == passphrase
      ensures this.usersFile == usersFile && this.infoFile == infoFile
      ensures info == match InfoInFile(infoFile, encodings, crypto, passphrase)
                      case Ok(read) => read
                      case Err(_) => Info(None, None)
      ensures cachedUsers == match UsersInFile(usersFile, encodings, crypto, passphrase)
                             case Ok(read) => Some(read)
                             case Err(_) => None
    {
      this.encodings, this.crypto, this.passphrase := encodings, crypto, passphrase;
      this.usersFile, this.infoFile := usersFile, infoFile;
      info := DEFAULT_INFO;
      cachedUsers := None;
      new;
      var _ := ReadInfo();
      var _ := ReadUsers();
    }

    method ReadInfo() returns (r: Result<(), CacheError>)
      modifies this`info
      ensures match InfoInFile(infoFile, encodings, crypto, passphrase)
              case Ok(read) => r == Ok(()) && info == read
              case Err(e) => r == Err(e) && info == old(info)
      ensures match infoFile
              case None => r == Err(Io) && info == old(info)
              case Some(content) =>
                match Decrypted(crypto, passphrase, content)
                case Err(e) => r == Err(CryptoFailure(e)) && info == old(info)
                case Ok(data) =>
                  match encodings.deserialize(data)
                  case None => r == Err(Serialization) && info == old(info)
                  case Some(read) => r == Ok(()) && info == read
    {
      if infoFile.None? {
        return Err(Io);
      }
      var decrypted := DecryptFile(crypto, passphrase, infoFile.value);
      if decrypted.Err? {
        return Err(CryptoFailure(decrypted.error));
      }
      var storage := encodings.deserialize(decrypted.value);
      if storage.None? {
        return Err(Serialization);
      }
      info := storage.value;
      return Ok(());
    }

    method ReadUsers() returns (r: Result<(), CacheError>)
      modifies this`cachedUsers
      ensures match UsersInFile(usersFile, encodings, crypto, passphrase)
              case Ok(read) => r == Ok(()) && cachedUsers == Some(read)
              case Err(e) => r == Err(e) && cachedUsers == old(cachedUsers)
      ensures match usersFile
              case None => r == Err(Io) && cachedUsers == old(cachedUsers)
              case Some(content) =>
                match Decrypted(crypto, passphrase, content)
                case Err(e) => r == Err(CryptoFailure(e)) && cachedUsers == old(cachedUsers)
                case Ok(data) =>
                  match Decode(encodings.users, data)
                  case Err(e) => r == Err(CodecFailure(e)) && cachedUsers == old(cachedUsers)
                  case Ok(read) => r == Ok(()) && cachedUsers == Some(read)
    {
      if usersFile.None? {
        return Err(Io);
      }
      var encoded := DecryptFile(crypto, passphrase, usersFile.value);
      if encoded.Err? {
        return Err(CryptoFailure(encoded.error));
      }
      var decoded := DecodeMessages(encodings.users, encoded.value);
      if decoded.Err? {
        return Err(CodecFailure(decoded.error));
      }
      cachedUsers := Some(decoded.value);
      return Ok(());
    }

    method WriteUsers(random: Random, disk: Disk) returns (r: Result<(), CacheError>)
      requires random.Sized()
      modifies this`usersFile
      ensures (r, usersFile) ==
              if cachedUsers.None? then (Ok(()), old(usersFile))
              else FileAfter(old(usersFile), crypto, passphrase, random,
                             Encode(encodings.users, cachedUsers.value), disk)
    {
      if cachedUsers.None? {
        return Ok(());
      }
      var encoded := EncodeMessages(encodings.users, cachedUsers.value);
      var encrypted := EncryptToFile(crypto, passphrase, random.salt, random.nonce, encoded);
      if encrypted.Err? {
        return Err(CryptoFailure(encrypted.error));
      }
      r, usersFile := WriteFile(usersFile, encrypted.value, disk);
    }

    method WriteInfo(random: Random, disk: Disk) returns (r: Result<(), CacheError>)
      requires random.Sized()
      modifies this`infoFile
      ensures (r, infoFile) ==
              if encodings.serialize(info).None? then (Err(Serialization), old(infoFile))
              else FileAfter(old(infoFile), crypto, passphrase, random, encodings.serialize(info).value, disk)
    {
      var serialized := encodings.serialize(info);
      if serialized.None? {
        return Err(Serialization);
      }
      var encrypted := EncryptToFile(crypto, passphrase, random.salt, random.nonce, serialized.value);
      if encrypted.Err? {
        return Err(CryptoFailure(encrypted.error));
      }
      r, infoFile := WriteFile(infoFile, encrypted.value, disk);
    }

    /**
     * One save. Whatever fails, the info on disk is the old one, the current one or unreadable; it changes only if
     * the users in memory reached the disk. A file that is not cut short keeps its content if it is not written.
     */
    method Save(forUsers: Random, usersDisk: Disk, forInfo: Random, infoDisk: Disk)
      returns (ghost users: Outcome, ghost written: Outcome)
      requires forUsers.Sized() && forInfo.Sized()
      requires Faithful(encodings) && Opens(crypto)
      modifies this`usersFile, this`infoFile
      ensures users == if cachedUsers.None? then Wrote else
                         WriteOutcome(crypto, passphrase, forUsers,
                                      Encode(encodings.users, cachedUsers.value), usersDisk)
      ensures written == if !users.Wrote? || encodings.serialize(info).None? then Failed else
                           WriteOutcome(crypto, passphrase, forInfo, encodings.serialize(info).value, infoDisk)
      ensures users.Failed? || cachedUsers.None? ==> usersFile == old(usersFile)
      ensures users.Wrote? && cachedUsers.Some? ==>
                UsersInFile(usersFile, encodings, crypto, passphrase) == Ok(cachedUsers.value)
      ensures users.CutShort? && DetectsCuts(crypto) ==> UsersInFile(usersFile, encodings, crypto, passphrase).Err?
      ensures written.Failed? ==> infoFile == old(infoFile)
      ensures written.Wrote? ==> InfoInFile(infoFile, encodings, crypto, passphrase) == Ok(info)
      ensures written.CutShort? && DetectsCuts(crypto) ==> InfoInFile(infoFile, encodings, crypto, passphrase).Err?
    {
      users, written := Wrote, Failed;
      if cachedUsers.Some? {
        ghost var encoded := Encode(encodings.users, cachedUsers.value);
        users := WriteOutcome(crypto, passphrase, forUsers, encoded, usersDisk);
        WrittenIsRead(usersFile, crypto, passphrase, forUsers, encoded, usersDisk);
        RoundTrip(encodings.users, cachedUsers.value);
      }
      var usersWritten := WriteUsers(forUsers, usersDisk);
      if usersWritten.Err? {
        return;
      }
      if encodings.serialize(info).Some? {
        ghost var serialized := encodings.serialize(info).value;
        written := WriteOutcome(crypto, passphrase, forInfo, serialized, infoDisk);
        WrittenIsRead(infoFile, crypto, passphrase, forInfo, serialized, infoDisk);
      }
      var _ := WriteInfo(forInfo, infoDisk);
    }

    method SetSyncToken(token: string)
      modifies this`info
      ensures info == old(info).(syncToken := Some(token))
    {
      info := info.(syncToken := Some(token));
    }

    method CacheUser(user: User)
      modifies this`cachedUsers
      ensures cachedUsers == ApplyOp(old(cachedUsers), UserOp.CacheUser(user))
      ensures cachedUsers.Some?
      ensures UsersMap(cachedUsers.value) == UsersMap(Listed(old(cachedUsers)))[user.id := user]
    {
      OpRefinesMap(cachedUsers, UserOp.CacheUser(user));
      if cachedUsers.None? {
        cachedUsers := Some([]);
      }
      var users := cachedUsers.value;
      var k := FirstWithId(users, user.id);
      if k < |users| {
        users := users[k := user];
      } else {
        users := users + [user];
      }
      cachedUsers := Some(users);
    }

    method UpdateUser(change: UserChange)
      modifies this`cachedUsers
      ensures cachedUsers == ApplyOp(old(cachedUsers), UserOp.UpdateUser(change))
      ensures KeepsId(change) ==>
                var m := UsersMap(Listed(old(cachedUsers)));
                UsersMap(Listed(cachedUsers)) ==
                if change.userId in m then m[change.userId := change.apply(m[change.userId])] else m
    {
      if KeepsId(change) {
        OpRefinesMap(cachedUsers, UserOp.UpdateUser(change));
      }
      if cachedUsers.None? {
        return;
      }
      var users := cachedUsers.value;
      var k := FirstWithId(users, change.userId);
      if k == |users| {
        return;
      }
      cachedUsers := Some(users[k := change.apply(users[k])]);
    }

    method GetUser(id: string) returns (r: Option<User>)
      ensures r == var m := UsersMap(Listed(cachedUsers)); if id in m then Some(m[id]) else None
    {
      FoundIsMapped(Listed(cachedUsers), id);
      if cachedUsers.None? {
        return None;
      }
      var k := FirstWithId(cachedUsers.value, id);
      return if k < |cachedUsers.value| then Some(cachedUsers.value[k]) else None;
    }
  }

  method FirstWithId(users: seq<User>, id: string) returns (k: nat)
    ensures k == FindUser(users, id)
  {
    k := 0;
    while k < |users| && users[k].id != id
      invariant k <= |users| && forall i :: 0 <= i < k ==> users[i].id != id
    {
      k := k + 1;
    }
  }

  /**
   * A save whose steps succeed, then a start on the saved files, gives back the info and the users; without cached
   * users the start reads those of an earlier save.
   */
  method SaveThenStart(cache: Cache, forUsers: Random, forInfo: Random) returns (restarted: Cache)
    requires forUsers.Sized() && forInfo.Sized()
    requires Faithful(cache.encodings) && Opens(cache.crypto)
    requires cache.encodings.serialize(cache.info).Some?
    requires cache.cachedUsers.Some? ==>
               Encrypted(cache.crypto, cache.passphrase, forUsers.salt, forUsers.nonce,
                         Encode(cache.encodings.users, cache.cachedUsers.value)).Ok?
    requires Encrypted(cache.crypto, cache.passphrase, forInfo.salt, forInfo.nonce,
                       cache.encodings.serialize(cache.info).value).Ok?
    modifies cache`usersFile, cache`infoFile
    ensures restarted.info == cache.info
    ensures cache.cachedUsers.Some? ==> restarted.cachedUsers == cache.cachedUsers
    ensures cache.cachedUsers.None? ==>
              restarted.cachedUsers ==
              match UsersInFile(old(cache.usersFile), cache.encodings, cache.crypto, cache.passphrase)
              case Ok(users) => Some(users)
              case Err(_) => None
  {
    ghost var _, _ := cache.Save(forUsers, Works, forInfo, Works);
    restarted := new Cache(cache.encodings, cache.crypto, cache.passphrase, cache.usersFile, cache.infoFile);
  }

  /** A token set before a save is the one the next start resumes from, and the user status stays. */
  method TokenSurvives(cache: Cache, token: string, forUsers: Random, forInfo: Random) returns (restarted: Cache)
    requires forUsers.Sized() && forInfo.Sized()
    requires Faithful(cache.encodings) && Opens(cache.crypto)
    requires var info := cache.info.(syncToken := Some(token));
      cache.encodings.serialize(info).Some? &&
      Encrypted(cache.crypto, cache.passphrase, forInfo.salt, forInfo.nonce, cache.encodings.serialize(info).value).Ok?
    requires cache.cachedUsers.Some? ==>
               Encrypted(cache.crypto, cache.passphrase, forUsers.salt, forUsers.nonce,
                         Encode(cache.encodings.users, cache.cachedUsers.value)).Ok?
    modifies cache
    ensures restarted.info.syncToken == Some(token) && restarted.info.userStatus == old(cache.info.userStatus)
    ensures old(cache.cachedUsers).Some? ==> restarted.cachedUsers == old(cache.cachedUsers)
  {
    cache.SetSyncToken(token);
    restarted := SaveThenStart(cache, forUsers, forInfo);
  }
}
