/**
  The HTTP route handlers and the WebSocket broadcaster of the server.

  A `Server` owns the storage, the firmware blob store (file paths to
  their bytes), and the set of subscribed WebSocket clients. The
  cryptographic primitives (SHA-256, HMAC-SHA256, bcrypt, JWT signing) are
  functions the server is constructed with; a handler receives the
  authenticated principal instead of a token, and the current time as a
  parameter.
 */
module Routes {
  import opened Basics
  import opened Tables
  import opened Schema
  import opened Storage
  import opened Auth
  import opened HexEncoding
  import opened Progression

  /** `WebSocket.OPEN`. */
  const WS_OPEN := 1

  const DEFAULT_MASTER_KEY := "default-key-for-development"
  const DEFAULT_STORAGE_DIR := "./storage/firmwares"

  /** `process.env.AES_MASTER_KEY || 'default-key-for-development'`. */
  function MasterKey(env: Option<string>): (key: string)
    ensures env.Some? && env.value != "" ==> key == env.value
    ensures env.None? || env.value == "" ==> key == DEFAULT_MASTER_KEY
  {
    if env.Some? && env.value != "" then env.value else DEFAULT_MASTER_KEY
  }

  /** `process.env.FIRMWARE_STORAGE_DIR || "./storage/firmwares"`. */
  function StorageDir(env: Option<string>): (dir: string)
    ensures env.Some? && env.value != "" ==> dir == env.value
    ensures env.None? || env.value == "" ==> dir == DEFAULT_STORAGE_DIR
  {
    if env.Some? && env.value != "" then env.value else DEFAULT_STORAGE_DIR
  }

  /** `${Date.now()}-${originalname}`: the blob's file name. */
  function UploadFilename(now: Millis, originalName: string): string {
    NatToString(now) + "-" + originalName
  }

  /**
    The blob name determines the upload time and the original name: two
    uploads share a blob only when both were made in the same millisecond
    under the same name.
   */
  lemma UploadFilenameInjective(t1: Millis, name1: string, t2: Millis, name2: string)
    requires UploadFilename(t1, name1) == UploadFilename(t2, name2)
    ensures t1 == t2 && name1 == name2
  {
    var p1, p2 := NatToString(t1), NatToString(t2);
    assert '-' !in p1 && '-' !in p2;
    assert UploadFilename(t1, name1) == p1 + ['-'] + name1;
    assert UploadFilename(t2, name2) == p2 + ['-'] + name2;
    IndexOfJoin(p1, '-', name1);
    IndexOfJoin(p2, '-', name2);
    DecimalRoundTrip(t1);
    DecimalRoundTrip(t2);
  }

  /** `path.join(dir, filename)`, without normalisation. */
  function StoragePath(dir: string, filename: string): string {
    dir + "/" + filename
  }

  /** `${name}-${version}.bin`: the file name a download suggests. */
  function DownloadName(f: Firmware): string {
    f.name + "-" + f.version + ".bin"
  }

  /** Every firmware record's blob exists and its stored digest is the digest of those bytes. */
  ghost predicate DigestsMatch(firmware: map<Id, Firmware>, files: map<string, seq<uint8>>, sha256: seq<uint8> -> seq<uint8>) {
    forall k :: k in firmware ==>
      firmware[k].storagePath in files && firmware[k].sha256 == Hex(sha256(files[firmware[k].storagePath]))
  }

  /**
    An upload to a path no blob occupies yet (the tables and the blob store
    as `UploadFirmware` leaves them) keeps every record's digest true to its
    blob, the new record's included.
   */
  lemma FreshPathKeepsDigests(firmware: map<Id, Firmware>, files: map<string, seq<uint8>>, sha256: seq<uint8> -> seq<uint8>,
                              f: Firmware, buffer: seq<uint8>)
    requires DigestsMatch(firmware, files, sha256)
    requires f.storagePath !in files && f.sha256 == Hex(sha256(buffer))
    ensures DigestsMatch(firmware[f.id := f], files[f.storagePath := buffer], sha256)
  {
    var firmware', files' := firmware[f.id := f], files[f.storagePath := buffer];
    forall k | k in firmware'
      ensures firmware'[k].storagePath in files'
      ensures firmware'[k].sha256 == Hex(sha256(files'[firmware'[k].storagePath]))
    {
      if k != f.id {
        assert firmware'[k] == firmware[k];
        assert firmware[k].storagePath != f.storagePath;
      }
    }
  }

  /** The devices of a group: what `filter(d => d.deviceGroup === group)` keeps. */
  ghost function GroupMembers(devices: map<Id, Device>, group: string): set<Id> {
    set k | k in devices && devices[k].deviceGroup == group
  }

  /** A file multer received: its original name and its bytes. */
  datatype UploadedFile = UploadedFile(originalName: string, buffer: seq<uint8>)

  /** A download: the stored bytes and the suggested file name. */
  datatype Download = Download(content: seq<uint8>, filename: string)

  /** A login's answer: the signed token and the user's public fields. */
  datatype Session = Session(token: string, user: Principal)

  /** One WebSocket connection on `/ws/updates`; `inbox` holds what it was sent. */
  class Client {
    var readyState: int
    var inbox: seq<Message>

    constructor (readyState: int)
      ensures this.readyState == readyState && inbox == []
    {
      this.readyState := readyState;
      inbox := [];
    }
  }

  class Server {
    const db: DatabaseStorage
    /** The blob store: file path to file contents. */
    var files: map<string, seq<uint8>>
    /** The subscribers of job updates. */
    var clients: set<Client>
    /** Every message broadcast, in order. */
    ghost var published: seq<Message>

    const storageDir: string
    const masterKey: string
    const sha256: seq<uint8> -> seq<uint8>
    const hmacSha256: (string, seq<uint8>) -> seq<uint8>
    /** `bcrypt.hash(password, 12)`. */
    const hashPassword: string -> string
    /** `bcrypt.compare(password, hash)`. */
    const checkPassword: (string, string) -> bool
    /** `generateToken`: signs a principal's claims. */
    const signToken: Principal -> string

    /** The storage is consistent and every firmware record's blob is stored. */
    ghost predicate Valid()
      reads this, db
    {
      && db.Valid()
      && (forall k :: k in db.firmware ==> db.firmware[k].storagePath in files)
    }

    constructor (storageDirEnv: Option<string>, masterKeyEnv: Option<string>,
                 sha256: seq<uint8> -> seq<uint8>, hmacSha256: (string, seq<uint8>) -> seq<uint8>,
                 hashPassword: string -> string, checkPassword: (string, string) -> bool,
                 signToken: Principal -> string)
      ensures Valid() && fresh(db)
      ensures db.users == map[] && db.devices == map[] && db.firmware == map[] && db.updateJobs == map[]
      ensures db.auditLogs == [] && files == map[] && clients == {} && published == []
      ensures this.storageDir == StorageDir(storageDirEnv) && this.masterKey == MasterKey(masterKeyEnv)
      ensures this.sha256 == sha256 && this.hmacSha256 == hmacSha256
      ensures this.hashPassword == hashPassword && this.checkPassword == checkPassword
      ensures this.signToken == signToken
    {
      db := new DatabaseStorage();
      storageDir := StorageDir(storageDirEnv);
      masterKey := MasterKey(masterKeyEnv);
      this.sha256, this.hmacSha256 := sha256, hmacSha256;
      this.hashPassword, this.checkPassword, this.signToken := hashPassword, checkPassword, signToken;
      files, clients, published := map[], {}, [];
    }

    // ---- the broadcaster ----

    /** A connection opens: the client joins the subscribers. */
    method Connect(ws: Client)
      modifies this`clients
      ensures clients == old(clients) + {ws}
    {
      clients := clients + {ws};
    }

    /** A connection closes: the client leaves the subscribers; nobody else does. */
    method Close(ws: Client)
      modifies this`clients
      ensures clients == old(clients) - {ws}
      ensures ws !in clients
    {
      clients := clients - {ws};
    }

    /**
      Sends one job update to every subscriber that is open; subscribers in
      any other state, and clients that are not subscribed, get nothing.
     */
    method BroadcastJobUpdate(jobId: Id, data: JobUpdateData)
      modifies this`published, clients`inbox
      ensures published == old(published) + [JobUpdate(jobId, data)]
      ensures forall c :: c in clients ==>
        c.inbox == old(c.inbox) + (if c.readyState == WS_OPEN then [JobUpdate(jobId, data)] else [])
    {
      var message := JobUpdate(jobId, data);
      var rest := clients;
      while rest != {}
        invariant rest <= clients
        invariant published == old(published)
        invariant forall c :: c in clients && c !in rest ==>
          c.inbox == old(c.inbox) + (if c.readyState == WS_OPEN then [message] else [])
        invariant forall c :: c in rest ==> c.inbox == old(c.inbox)
        decreases |rest|
      {
        var c :| c in rest;
        if c.readyState == WS_OPEN {
          c.inbox := c.inbox + [message];
        }
        rest := rest - {c};
      }
      published := published + [message];
    }

    // ---- auth routes ----

    /**
      `POST /api/auth/login`: an empty username or password is 400; an
      unknown user or a password that does not match the stored hash is
      401; otherwise the answer is a token over the user's claims, and the
      login is audited.
     */
    method Login(username: string, password: string, now: Millis) returns (r: Reply<Session>)
      requires Valid()
      modifies db`auditLogs, db`nextId
      ensures Valid()
      ensures r.Failure? ==> db.auditLogs == old(db.auditLogs)
      ensures username == "" || password == "" ==> r == Failure(BAD_REQUEST, "Username and password required")
      ensures username != "" && password != "" && !UsernameTaken(db.users, username) ==>
        r == Failure(UNAUTHORIZED, "Invalid credentials")
      ensures forall k :: k in db.users && db.users[k].username == username && username != "" && password != "" ==>
        var u := db.users[k];
        if checkPassword(password, u.passwordHash) then
          && r == Success(OK, Session(signToken(Claims(u)), Claims(u)))
          && db.auditLogs == old(db.auditLogs) +
               [NewAuditLog(old(db.nextId), InsertAuditLog(u.id, "login", "user", Some(u.id), LoginDetails(username)), now)]
        else
          r == Failure(UNAUTHORIZED, "Invalid credentials")
    {
      if username == "" || password == "" {
        return Failure(BAD_REQUEST, "Username and password required");
      }
      var user := db.GetUserByUsername(username);
      if user.None? {
        return Failure(UNAUTHORIZED, "Invalid credentials");
      }
      var u := user.value;
      if !checkPassword(password, u.passwordHash) {
        return Failure(UNAUTHORIZED, "Invalid credentials");
      }
      var token := signToken(Claims(u));
      var _ := db.CreateAuditLog(InsertAuditLog(u.id, "login", "user", Some(u.id), LoginDetails(username)), now);
      r := Success(OK, Session(token, Claims(u)));
    }

    /**
      `POST /api/auth/register`: a password under eight characters is 400,
      a taken username is 400, and otherwise the user is stored with the
      bcrypt hash in place of the password and the registration audited.
     */
    method RegisterUser(input: InsertUser, now: Millis) returns (r: Reply<Principal>)
      requires Valid()
      modifies db`users, db`nextId, db`auditLogs, db`usernameIndex
      ensures Valid()
      ensures r.Failure? ==> db.users == old(db.users) && db.auditLogs == old(db.auditLogs)
      ensures !ValidUserInput(input) ==> r == Failure(BAD_REQUEST, "Validation error")
      ensures ValidUserInput(input) && UsernameTaken(old(db.users), input.username) ==>
        r == Failure(BAD_REQUEST, "Username already exists")
      ensures ValidUserInput(input) && !UsernameTaken(old(db.users), input.username) ==>
        var u := NewUser(old(db.nextId), input.(password := hashPassword(input.password)), now);
        && r == Success(CREATED, Claims(u))
        && u.id !in old(db.users)
        && db.users == old(db.users)[u.id := u]
        && db.auditLogs == old(db.auditLogs) +
             [NewAuditLog(old(db.nextId) + 1, InsertAuditLog(u.id, "register", "user", Some(u.id), UserDetails(u.username, u.role)), now)]
    {
      if !ValidUserInput(input) {
        return Failure(BAD_REQUEST, "Validation error");
      }
      var existing := db.GetUserByUsername(input.username);
      if existing.Some? {
        return Failure(BAD_REQUEST, "Username already exists");
      }
      var hashed := hashPassword(input.password);
      var created := db.CreateUser(input.(password := hashed), now);
      var u := created.value;
      var _ := db.CreateAuditLog(InsertAuditLog(u.id, "register", "user", Some(u.id), UserDetails(u.username, u.role)), now);
      r := Success(CREATED, Claims(u));
    }

    // ---- firmware routes ----

    /**
      `POST /api/firmware/upload`: without a file, 400 and nothing changes.
      With one, its bytes are stored under `<dir>/<now>-<name>` first; the
      record then created carries that path and the SHA-256 digest and
      HMAC of those same bytes, in hex; the upload is audited.
     */
    method UploadFirmware(user: Principal, file: Option<UploadedFile>, input: InsertFirmware, now: Millis)
      returns (r: Reply<Firmware>)
      requires Valid()
      modifies this`files, db`firmware, db`nextId, db`auditLogs
      ensures Valid()
      ensures file.None? ==>
        && r == Failure(BAD_REQUEST, "No firmware file provided")
        && files == old(files) && db.firmware == old(db.firmware) && db.auditLogs == old(db.auditLogs)
      ensures file.Some? ==>
        var buffer, path := file.value.buffer, StoragePath(storageDir, UploadFilename(now, file.value.originalName));
        var f := NewFirmware(old(db.nextId), input, user.id, path, Hex(sha256(buffer)), Hex(hmacSha256(masterKey, buffer)), now);
        && r == Success(CREATED, f)
        && files == old(files)[path := buffer]
        && f.id !in old(db.firmware)
        && db.firmware == old(db.firmware)[f.id := f]
        && db.auditLogs == old(db.auditLogs) +
             [NewAuditLog(old(db.nextId) + 1, InsertAuditLog(user.id, "firmware_upload", "firmware", Some(f.id), FirmwareDetails(f.name, f.version)), now)]
    {
      if file.None? {
        return Failure(BAD_REQUEST, "No firmware file provided");
      }
      var buffer := file.value.buffer;
      var digest := Hex(sha256(buffer));
      var hmac := Hex(hmacSha256(masterKey, buffer));
      var path := StoragePath(storageDir, UploadFilename(now, file.value.originalName));
      var f := StoreFirmware(user, input, path, buffer, digest, hmac, now);
      r := Success(CREATED, f);
    }

    /** The blob written at `path`, the firmware row pointing at it, and its `firmware_upload` audit entry. */
    method StoreFirmware(user: Principal, input: InsertFirmware, path: string, buffer: seq<uint8>,
                         digest: string, hmac: string, now: Millis)
      returns (f: Firmware)
      requires Valid()
      modifies this`files, db`firmware, db`nextId, db`auditLogs
      ensures Valid()
      ensures files == old(files)[path := buffer]
      ensures f == NewFirmware(old(db.nextId), input, user.id, path, digest, hmac, now)
      ensures f.id !in old(db.firmware)
      ensures db.firmware == old(db.firmware)[f.id := f]
      ensures db.auditLogs == old(db.auditLogs) +
        [NewAuditLog(old(db.nextId) + 1, InsertAuditLog(user.id, "firmware_upload", "firmware", Some(f.id), FirmwareDetails(f.name, f.version)), now)]
    {
      files := files[path := buffer];
      f := db.CreateFirmware(input, user.id, path, digest, hmac, now);
      var _ := db.CreateAuditLog(InsertAuditLog(user.id, "firmware_upload", "firmware", Some(f.id), FirmwareDetails(f.name, f.version)), now);
    }

    /**
      `GET /api/firmware/:id/download`: an unknown id is 404; otherwise the
      stored bytes, named `<name>-<version>.bin`. A record whose blob is
      missing makes the file read throw, which is a 500.
     */
    method DownloadFirmware(id: Id) returns (r: Reply<Download>)
      ensures id !in db.firmware ==> r == Failure(NOT_FOUND, "Firmware not found")
      ensures id in db.firmware && db.firmware[id].storagePath !in files ==>
        r == Failure(SERVER_ERROR, "Internal server error")
      ensures id in db.firmware && db.firmware[id].storagePath in files ==>
        r == Success(OK, Download(files[db.firmware[id].storagePath], DownloadName(db.firmware[id])))
    {
      var firmware := db.GetFirmwareById(id);
      if firmware.None? {
        return Failure(NOT_FOUND, "Firmware not found");
      }
      var f := firmware.value;
      if f.storagePath !in files {
        return Failure(SERVER_ERROR, "Internal server error");
      }
      r := Success(OK, Download(files[f.storagePath], DownloadName(f)));
    }

    /** An upload followed by a download of the new record gives back exactly the uploaded bytes. */
    method UploadThenDownload(user: Principal, file: UploadedFile, input: InsertFirmware, now: Millis)
      returns (up: Reply<Firmware>, down: Reply<Download>)
      requires Valid()
      modifies this`files, db`firmware, db`nextId, db`auditLogs
      ensures Valid()
      ensures up.Success? && down.Success?
      ensures down.body.content == file.buffer
      ensures down.body.filename == input.name + "-" + input.version + ".bin"
    {
      up := UploadFirmware(user, Some(file), input, now);
      down := DownloadFirmware(up.body.id);
    }

    /**
      Two uploads of the same name in the same millisecond write the same
      path, and the second's bytes replace the first's: when the two
      digests differ, the first record's digest no longer matches its blob.
     */
    method UploadTwiceSameMillisecond(user: Principal, first: UploadedFile, second: UploadedFile,
                                      input1: InsertFirmware, input2: InsertFirmware, now: Millis)
      returns (up1: Reply<Firmware>, up2: Reply<Firmware>)
      requires Valid()
      requires first.originalName == second.originalName
      requires sha256(first.buffer) != sha256(second.buffer)
      modifies this`files, db`firmware, db`nextId, db`auditLogs
      ensures Valid()
      ensures up1.Success? && up2.Success?
      ensures up1.body.id in db.firmware && db.firmware[up1.body.id] == up1.body
      ensures up1.body.storagePath == up2.body.storagePath && files[up1.body.storagePath] == second.buffer
      ensures up1.body.sha256 != Hex(sha256(files[up1.body.storagePath]))
    {
      up1 := UploadFirmware(user, Some(first), input1, now);
      up2 := UploadFirmware(user, Some(second), input2, now);
      HexDistinct(sha256(first.buffer), sha256(second.buffer));
    }

    // ---- device routes ----

    /**
      `POST /api/devices/register`: a taken identifier is 400 and changes
      nothing; otherwise exactly one device, never seen, and one audit
      entry are added.
     */
    method RegisterDevice(user: Principal, input: InsertDevice, now: Millis) returns (r: Reply<Device>)
      requires Valid()
      modifies db`devices, db`nextId, db`auditLogs, db`identifierIndex
      ensures Valid()
      ensures IdentifierTaken(old(db.devices), input.deviceIdentifier) ==>
        && r == Failure(BAD_REQUEST, "Device identifier already exists")
        && db.devices == old(db.devices) && db.auditLogs == old(db.auditLogs)
      ensures !IdentifierTaken(old(db.devices), input.deviceIdentifier) ==>
        var d := NewDevice(old(db.nextId), input, now);
        && r == Success(CREATED, d)
        && d.id !in old(db.devices)
        && db.devices == old(db.devices)[d.id := d]
        && |db.devices| == |old(db.devices)| + 1
        && db.auditLogs == old(db.auditLogs) +
             [NewAuditLog(old(db.nextId) + 1, InsertAuditLog(user.id, "device_register", "device", Some(d.id), DeviceDetails(d.deviceIdentifier, d.name)), now)]
    {
      var existing := db.GetDeviceByIdentifier(input.deviceIdentifier);
      if existing.Some? {
        return Failure(BAD_REQUEST, "Device identifier already exists");
      }
      var created := db.CreateDevice(input, now);
      var d := created.value;
      var _ := db.CreateAuditLog(InsertAuditLog(user.id, "device_register", "device", Some(d.id), DeviceDetails(d.deviceIdentifier, d.name)), now);
      r := Success(CREATED, d);
    }

    // ---- update job routes ----

    /** `targetDevices.filter(d => d.deviceGroup === group).length` over a listing of the device table. */
    method CountInGroup(targetDevices: seq<Device>, group: string) returns (n: nat)
      requires IsListing(db.devices, targetDevices)
      ensures n == |GroupMembers(db.devices, group)|
    {
      var inGroup := (d: Device) => d.deviceGroup == group;
      n := Count(targetDevices, inGroup);
      ListingCount(db.devices, targetDevices, inGroup);
      assert KeysWhere(db.devices, db.devices.Keys, inGroup) == GroupMembers(db.devices, group);
    }

    /** A new update job row and the audit entry recording `action` on it. */
    method CreateAuditedJob(user: Principal, input: InsertUpdateJob, action: string, details: AuditDetails, now: Millis)
      returns (j: UpdateJob)
      requires Valid()
      modifies db`updateJobs, db`nextId, db`auditLogs
      ensures Valid()
      ensures j == NewUpdateJob(old(db.nextId), input, user.id, now)
      ensures j.id !in old(db.updateJobs)
      ensures db.updateJobs == old(db.updateJobs)[j.id := j]
      ensures db.auditLogs == old(db.auditLogs) + [NewAuditLog(old(db.nextId) + 1, InsertAuditLog(user.id, action, "update_job", Some(j.id), details), now)]
    {
      j := db.CreateUpdateJob(input, user.id, now);
      var _ := db.CreateAuditLog(InsertAuditLog(user.id, action, "update_job", Some(j.id), details), now);
    }

    /**
      `POST /api/update/trigger`, up to scheduling: an unknown firmware is
      404 and creates no job and no audit entry; otherwise a job sized by
      the number of devices in the firmware's target group is created
      with the schema defaults, and audited.
     */
    method TriggerUpdateJob(user: Principal, input: InsertUpdateJob, now: Millis) returns (r: Reply<UpdateJob>)
      requires Valid()
      modifies db`updateJobs, db`nextId, db`auditLogs
      ensures Valid()
      ensures input.firmwareId !in db.firmware ==>
        && r == Failure(NOT_FOUND, "Firmware not found")
        && db.updateJobs == old(db.updateJobs) && db.auditLogs == old(db.auditLogs) && db.nextId == old(db.nextId)
      ensures input.firmwareId in db.firmware ==>
        var count := |GroupMembers(db.devices, db.firmware[input.firmwareId].targetDeviceGroup)|;
        var j := NewUpdateJob(old(db.nextId), input.(totalDevices := Some(count)), user.id, now);
        && r == Success(CREATED, j)
        && j.totalDevices == count
        && j.id !in old(db.updateJobs)
        && db.updateJobs == old(db.updateJobs)[j.id := j]
        && db.auditLogs == old(db.auditLogs) +
             [NewAuditLog(old(db.nextId) + 1, InsertAuditLog(user.id, "update_job_create", "update_job", Some(j.id), JobDetails(input.firmwareId, count)), now)]
    {
      var targetDevices := db.GetDevices();
      var firmware := db.GetFirmwareById(input.firmwareId);
      if firmware.None? {
        return Failure(NOT_FOUND, "Firmware not found");
      }
      var deviceCount := CountInGroup(targetDevices, firmware.value.targetDeviceGroup);
      var job := CreateAuditedJob(user, input.(totalDevices := Some(deviceCount)), "update_job_create", JobDetails(input.firmwareId, deviceCount), now);
      r := Success(CREATED, job);
    }

    /** One step of the scheduled body: a write to the job table, then its broadcast. */
    method WriteAndBroadcast(w: JobWrite, data: JobUpdateData)
      requires Valid()
      modifies db`updateJobs, db`jobWrites, this`published, clients`inbox
      ensures Valid()
      ensures db.jobWrites == old(db.jobWrites) + [w]
      ensures db.updateJobs == ApplyWrite(old(db.updateJobs), w)
      ensures published == old(published) + [JobUpdate(w.jobId, data)]
      ensures forall c :: c in clients ==>
        c.inbox == old(c.inbox) + (if c.readyState == WS_OPEN then [JobUpdate(w.jobId, data)] else [])
    {
      match w {
        case SetProgress(id, progress, completed, failed, at) =>
          db.UpdateUpdateJobProgress(id, progress, completed, failed, at);
        case SetStatus(id, status, at) =>
          db.UpdateUpdateJobStatus(id, status, at);
      }
      BroadcastJobUpdate(w.jobId, data);
    }

    /**
      The first `i` loop steps of the progression of job `jobId` over `n`
      devices have run since the job table was `jobs0`, the write log
      `writes0`, the broadcast log `published0` and each subscriber's
      inbox `inbox0[c]`.
     */
    ghost predicate Progressed(jobId: Id, i: nat, n: nat, clock: nat -> Millis, jobs0: map<Id, UpdateJob>,
                               writes0: seq<JobWrite>, published0: seq<Message>, inbox0: map<Client, seq<Message>>)
      requires i <= n
      reads this, db, clients
    {
      && db.jobWrites == writes0 + StepWrites(jobId, i, clock)
      && db.updateJobs == ApplyWrites(jobs0, StepWrites(jobId, i, clock))
      && published == published0 + StepEvents(jobId, i, n)
      && (forall c :: c in clients ==>
            c in inbox0 && c.inbox == inbox0[c] + (if c.readyState == WS_OPEN then StepEvents(jobId, i, n) else []))
    }

    /** Loop step `i`: device `i` is done; stored progress 100, broadcast the rounded percentage. */
    method AdvanceJob(jobId: Id, i: nat, n: nat, clock: nat -> Millis, ghost jobs0: map<Id, UpdateJob>,
                      ghost writes0: seq<JobWrite>, ghost published0: seq<Message>, ghost inbox0: map<Client, seq<Message>>)
      requires Valid() && 1 <= i <= n
      requires Progressed(jobId, i - 1, n, clock, jobs0, writes0, published0, inbox0)
      modifies db`updateJobs, db`jobWrites, this`published, clients`inbox
      ensures Valid()
      ensures Progressed(jobId, i, n, clock, jobs0, writes0, published0, inbox0)
    {
      var progress := RoundedPercent(i, n);
      var w := SetProgress(jobId, 100, i, 0, clock(i));
      ghost var written := StepWrites(jobId, i - 1, clock);
      ghost var sent, message := StepEvents(jobId, i - 1, n), JobUpdate(jobId, ProgressReport(progress, i));
      ApplyWritesSnoc(jobs0, written, w);
      WriteAndBroadcast(w, ProgressReport(progress, i));
      assert db.jobWrites == writes0 + (written + [w]);
      assert published == published0 + (sent + [message]);
      forall c | c in clients
        ensures c in inbox0 && c.inbox == inbox0[c] + (if c.readyState == WS_OPEN then sent + [message] else [])
      {
        if c.readyState == WS_OPEN {
          assert (inbox0[c] + sent) + [message] == inbox0[c] + (sent + [message]);
        }
      }
    }

    /** Loop step 0: the job goes `in_progress`. */
    method StartJob(jobId: Id, n: nat, clock: nat -> Millis, ghost jobs0: map<Id, UpdateJob>,
                    ghost writes0: seq<JobWrite>, ghost published0: seq<Message>, ghost inbox0: map<Client, seq<Message>>)
      requires Valid()
      requires db.updateJobs == jobs0 && db.jobWrites == writes0 && published == published0
      requires forall c :: c in clients ==> c in inbox0 && c.inbox == inbox0[c]
      modifies db`updateJobs, db`jobWrites, this`published, clients`inbox
      ensures Valid()
      ensures Progressed(jobId, 0, n, clock, jobs0, writes0, published0, inbox0)
    {
      var w := SetStatus(jobId, IN_PROGRESS, clock(0));
      ApplyWritesSnoc(jobs0, [], w);
      assert [] + [w] == StepWrites(jobId, 0, clock);
      WriteAndBroadcast(w, StatusChange(IN_PROGRESS));
    }

    /** After the last device: the job goes `completed`, which ends the progression. */
    method FinishJob(jobId: Id, n: nat, clock: nat -> Millis, ghost jobs0: map<Id, UpdateJob>,
                     ghost writes0: seq<JobWrite>, ghost published0: seq<Message>, ghost inbox0: map<Client, seq<Message>>)
      requires Valid()
      requires Progressed(jobId, n, n, clock, jobs0, writes0, published0, inbox0)
      modifies db`updateJobs, db`jobWrites, this`published, clients`inbox
      ensures Valid()
      ensures db.jobWrites == writes0 + ProgressionWrites(jobId, n, clock)
      ensures db.updateJobs == ApplyWrites(jobs0, ProgressionWrites(jobId, n, clock))
      ensures published == published0 + ProgressionEvents(jobId, n)
      ensures forall c :: c in clients ==>
        c in inbox0 && c.inbox == inbox0[c] + (if c.readyState == WS_OPEN then ProgressionEvents(jobId, n) else [])
    {
      var w := SetStatus(jobId, COMPLETED, clock(n + 1));
      ghost var written, sent := StepWrites(jobId, n, clock), StepEvents(jobId, n, n);
      ghost var message := JobUpdate(jobId, StatusChange(COMPLETED));
      ApplyWritesSnoc(jobs0, written, w);
      WriteAndBroadcast(w, StatusChange(COMPLETED));
      assert db.jobWrites == writes0 + (written + [w]);
      assert published == published0 + (sent + [message]);
      forall c | c in clients
        ensures c in inbox0 && c.inbox == inbox0[c] + (if c.readyState == WS_OPEN then sent + [message] else [])
      {
        if c.readyState == WS_OPEN {
          assert (inbox0[c] + sent) + [message] == inbox0[c] + (sent + [message]);
        }
      }
    }

    /**
      The scheduled body of a trigger: `in_progress`, one step per device
      (stored progress 100, `completedDevices` the step, broadcast the
      rounded percentage), then `completed`, each write broadcast to the
      open subscribers. Nothing but the job table, the write log and the
      broadcasts changes.
     */
    method RunUpdateJob(jobId: Id, deviceCount: nat, clock: nat -> Millis)
      requires Valid()
      modifies db`updateJobs, db`jobWrites, this`published, clients`inbox
      ensures Valid()
      ensures db.jobWrites == old(db.jobWrites) + ProgressionWrites(jobId, deviceCount, clock)
      ensures db.updateJobs == ApplyWrites(old(db.updateJobs), ProgressionWrites(jobId, deviceCount, clock))
      ensures published == old(published) + ProgressionEvents(jobId, deviceCount)
      ensures forall c :: c in clients ==>
        c.inbox == old(c.inbox) + (if c.readyState == WS_OPEN then ProgressionEvents(jobId, deviceCount) else [])
    {
      ghost var jobs0, writes0, published0 := db.updateJobs, db.jobWrites, published;
      ghost var inbox0 := map c | c in clients :: c.inbox;
      StartJob(jobId, deviceCount, clock, jobs0, writes0, published0, inbox0);
      var i := 0;
      while i < deviceCount
        invariant i <= deviceCount
        invariant Valid()
        invariant Progressed(jobId, i, deviceCount, clock, jobs0, writes0, published0, inbox0)
      {
        i := i + 1;
        AdvanceJob(jobId, i, deviceCount, clock, jobs0, writes0, published0, inbox0);
      }
      FinishJob(jobId, deviceCount, clock, jobs0, writes0, published0, inbox0);
    }

    /**
      A trigger followed by its scheduled progression, with no other
      request in between: for a known firmware the job ends `completed`
      with every device of the group completed and none failed, and its
      stored progress is 100, or still 0 when the group is empty.
     */
    method TriggerAndRun(user: Principal, input: InsertUpdateJob, now: Millis, clock: nat -> Millis)
      returns (r: Reply<UpdateJob>)
      requires Valid()
      modifies db`updateJobs, db`nextId, db`auditLogs, db`jobWrites, this`published, clients`inbox
      ensures Valid()
      ensures input.firmwareId !in db.firmware ==> r == Failure(NOT_FOUND, "Firmware not found")
      ensures input.firmwareId in db.firmware ==>
        var count := |GroupMembers(db.devices, db.firmware[input.firmwareId].targetDeviceGroup)|;
        && r.Success?
        && r.body.id in db.updateJobs
        && var j := db.updateJobs[r.body.id];
        && j.status == COMPLETED
        && j.totalDevices == j.completedDevices == count
        && j.failedDevices == 0
        && j.progress == (if count == 0 then 0 else 100)
    {
      r := TriggerUpdateJob(user, input, now);
      if r.Success? {
        RunStoredJob(r.body, clock);
      }
    }

    /** The scheduled body run on a job just stored: it ends `completed`, every device done and none failed. */
    method RunStoredJob(job: UpdateJob, clock: nat -> Millis)
      requires Valid()
      requires job.id in db.updateJobs && db.updateJobs[job.id] == job
      requires job.totalDevices >= 0 && job.progress == 0 && job.completedDevices == 0 && job.failedDevices == 0
      modifies db`updateJobs, db`jobWrites, this`published, clients`inbox
      ensures Valid()
      ensures job.id in db.updateJobs
      ensures var j := db.updateJobs[job.id];
        && j.status == COMPLETED
        && j.totalDevices == j.completedDevices == job.totalDevices
        && j.failedDevices == 0
        && j.progress == (if job.totalDevices == 0 then 0 else 100)
    {
      var n: nat := job.totalDevices;
      ghost var jobs := db.updateJobs;
      RunUpdateJob(job.id, n, clock);
      ProgressionOutcome(jobs, job.id, n, clock);
    }

    /** `GET /api/update/:jobId/status`: the job's row, or 404. */
    function GetUpdateJobStatus(jobId: Id): (r: Reply<UpdateJob>)
      reads this, db
      ensures r.Success? <==> jobId in db.updateJobs
      ensures r.Success? ==> r.code == OK && r.body == db.updateJobs[jobId]
      ensures r.Failure? ==> r == Failure(NOT_FOUND, "Update job not found")
    {
      match db.GetUpdateJob(jobId)
      case Some(j) => Success(OK, j)
      case None => Failure(NOT_FOUND, "Update job not found")
    }

    /**
      `POST /api/update/:jobId/rollback`: an unknown job is 404; otherwise
      a new pending job copying the original's firmware, transport,
      strategy and device count is created and audited. It targets the
      same firmware, and nothing schedules it.
     */
    method RollbackUpdateJob(user: Principal, jobId: Id, now: Millis) returns (r: Reply<UpdateJob>)
      requires Valid()
      modifies db`updateJobs, db`nextId, db`auditLogs
      ensures Valid()
      ensures jobId !in old(db.updateJobs) ==>
        && r == Failure(NOT_FOUND, "Original update job not found")
        && db.updateJobs == old(db.updateJobs) && db.auditLogs == old(db.auditLogs)
      ensures jobId in old(db.updateJobs) ==>
        var original := old(db.updateJobs)[jobId];
        && r.Success? && r.code == CREATED
        && r.body.firmwareId == original.firmwareId
        && r.body.transportType == original.transportType
        && r.body.strategy == original.strategy
        && r.body.totalDevices == original.totalDevices
        && r.body.initiatedBy == user.id
        && r.body.status == PENDING
        && r.body.progress == 0 && r.body.completedDevices == 0 && r.body.failedDevices == 0
        && r.body.id !in old(db.updateJobs)
        && db.updateJobs == old(db.updateJobs)[r.body.id := r.body]
        && db.auditLogs == old(db.auditLogs) +
             [NewAuditLog(old(db.nextId) + 1, InsertAuditLog(user.id, "rollback_job_create", "update_job", Some(r.body.id), RollbackDetails(jobId)), now)]
    {
      var found := db.GetUpdateJob(jobId);
      if found.None? {
        return Failure(NOT_FOUND, "Original update job not found");
      }
      var original := found.value;
      var job := CreateAuditedJob(user,
        InsertUpdateJob(original.firmwareId, original.transportType, Some(original.strategy), None, Some(original.totalDevices)),
        "rollback_job_create", RollbackDetails(original.id), now);
      r := Success(CREATED, job);
    }

    /** `GET /api/audit`: the newest audit entries, at most the default hundred, newest first. */
    method ListAuditLogs() returns (r: Reply<seq<AuditLog>>)
      ensures r.Success? && r.code == OK
      ensures exists s :: multiset(s) == multiset(db.auditLogs) && Descending(s, AuditCreatedKey) && r.body == Take(s, DEFAULT_AUDIT_LIMIT)
      ensures |r.body| == if |db.auditLogs| < DEFAULT_AUDIT_LIMIT then |db.auditLogs| else DEFAULT_AUDIT_LIMIT
      ensures forall a :: a in r.body ==> a in db.auditLogs
      ensures Descending(r.body, AuditCreatedKey)
    {
      var logs := db.GetAuditLogs(DEFAULT_AUDIT_LIMIT);
      r := Success(OK, logs);
    }
  }
}
