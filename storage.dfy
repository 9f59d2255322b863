/**
  The storage layer: the five tables as in-memory maps, the inserts that
  fill in ids and defaults, the single-row updates, the ordered listings
  and the dashboard counts.
 */
module Storage {
  import opened Basics
  import opened Tables
  import opened Schema

  /** One write issued to the job table, as the storage receives it. */
  datatype JobWrite =
    | SetProgress(jobId: Id, progress: int, completedDevices: int, failedDevices: int, at: Millis)
    | SetStatus(jobId: Id, status: string, at: Millis)

  /**
    The job table after one `UPDATE ... WHERE id = jobId`: only the row
    with that id changes, and only in the columns the write sets. A write
    to an id with no row changes nothing. A status write looks at no
    current status, so it overwrites terminal statuses too.
   */
  function ApplyWrite(jobs: map<Id, UpdateJob>, w: JobWrite): (r: map<Id, UpdateJob>)
    ensures r.Keys == jobs.Keys
    ensures forall k :: k in jobs && k != w.jobId ==> r[k] == jobs[k]
    ensures w.jobId in jobs && w.SetProgress? ==>
      && r[w.jobId] == jobs[w.jobId].(progress := r[w.jobId].progress,
                                     completedDevices := r[w.jobId].completedDevices,
                                     failedDevices := r[w.jobId].failedDevices,
                                     updatedAt := r[w.jobId].updatedAt)
      && r[w.jobId].progress == w.progress
      && r[w.jobId].completedDevices == w.completedDevices
      && r[w.jobId].failedDevices == w.failedDevices
      && r[w.jobId].updatedAt == w.at
    ensures w.jobId in jobs && w.SetStatus? ==>
      && r[w.jobId] == jobs[w.jobId].(status := r[w.jobId].status, updatedAt := r[w.jobId].updatedAt)
      && r[w.jobId].status == w.status
      && r[w.jobId].updatedAt == w.at
  {
    if w.jobId !in jobs then jobs
    else
      var j := jobs[w.jobId];
      match w
      case SetProgress(id, p, c, f, t) =>
        jobs[id := j.(progress := p, completedDevices := c, failedDevices := f, updatedAt := t)]
      case SetStatus(id, s, t) =>
        jobs[id := j.(status := s, updatedAt := t)]
  }

  /** The job table after a sequence of writes, applied in order. */
  function ApplyWrites(jobs: map<Id, UpdateJob>, ws: seq<JobWrite>): (r: map<Id, UpdateJob>)
    ensures r.Keys == jobs.Keys
  {
    if ws == [] then jobs else ApplyWrite(ApplyWrites(jobs, ws[..|ws| - 1]), ws[|ws| - 1])
  }

  lemma ApplyWritesSnoc(jobs: map<Id, UpdateJob>, ws: seq<JobWrite>, w: JobWrite)
    ensures ApplyWrites(jobs, ws + [w]) == ApplyWrite(ApplyWrites(jobs, ws), w)
  {
    assert (ws + [w])[..|ws|] == ws;
  }

  /** A terminal job status is no barrier to a later status write. */
  lemma TerminalStatusOverwritten(jobs: map<Id, UpdateJob>, id: Id, status: string, at: Millis)
    requires id in jobs && jobs[id].status in {COMPLETED, FAILED, CANCELLED}
    ensures ApplyWrite(jobs, SetStatus(id, status, at))[id].status == status
  {
  }

  predicate IsInProgress(j: UpdateJob) { j.status == IN_PROGRESS }
  predicate IsCompleted(j: UpdateJob) { j.status == COMPLETED }
  predicate IsFinished(j: UpdateJob) { j.status == COMPLETED || j.status == FAILED }
  predicate IsActiveFirmware(f: Firmware) { f.isActive }
  predicate Any<T>(x: T) { true }

  /**
    The success rate in tenths of a percent: `completed / finished * 100`
    rounded half up to one decimal place, and 0 when no job has finished.
   */
  function SuccessRateTenths(completed: nat, finished: nat): (r: nat)
    ensures finished == 0 ==> r == 0
    ensures finished > 0 ==> 2 * finished * r <= 2000 * completed + finished < 2 * finished * (r + 1)
    ensures completed <= finished ==> r <= 1000
  {
    if finished == 0 then 0
    else
      RoundedRateBounds(completed, finished);
      (2000 * completed + finished) / (2 * finished)
  }

  lemma RoundedRateBounds(completed: nat, finished: nat)
    requires finished > 0
    ensures var q := (2000 * completed + finished) / (2 * finished);
      && 2 * finished * q <= 2000 * completed + finished < 2 * finished * (q + 1)
      && (completed <= finished ==> q <= 1000)
  {
    var x, d := 2000 * completed + finished, 2 * finished;
    var q, m := x / d, x % d;
    assert x == d * q + m && 0 <= m < d;
    assert d * (q + 1) == d * q + d;
    if completed <= finished && q > 1000 {
      MultiplyMonotone(d, 1001, q);
      assert false;
    }
  }

  /** How many audit entries a listing returns when the caller gives no limit. */
  const DEFAULT_AUDIT_LIMIT := 100

  /** The dashboard figures, with the success rate in tenths of a percent. */
  datatype Stats = Stats(totalDevices: nat, activeUpdates: nat, firmwareVersions: nat, successRateTenths: nat)

  ghost predicate UsernameTaken(users: map<Id, User>, username: string) {
    exists k :: k in users && users[k].username == username
  }

  ghost predicate IdentifierTaken(devices: map<Id, Device>, identifier: string) {
    exists k :: k in devices && devices[k].deviceIdentifier == identifier
  }

  lemma CountWhereMonotone<T>(m: map<Id, T>, p: T -> bool, q: T -> bool)
    requires forall x :: p(x) ==> q(x)
    ensures CountWhere(m, p) <= CountWhere(m, q)
  {
    var small, large := KeysWhere(m, m.Keys, p), KeysWhere(m, m.Keys, q);
    assert large == small + (large - small);
    assert small !! (large - small);
  }

  class DatabaseStorage {
    var users: map<Id, User>
    var devices: map<Id, Device>
    var firmware: map<Id, Firmware>
    var updateJobs: map<Id, UpdateJob>
    var auditLogs: seq<AuditLog>
    /** The next id `gen_random_uuid()` hands out: every id is fresh. */
    var nextId: Id
    /** Every write issued to the job table, in order. */
    ghost var jobWrites: seq<JobWrite>
    /** The unique indexes on `users.username` and `devices.device_identifier`: each value leads to one row. */
    ghost var usernameIndex: map<string, Id>
    ghost var identifierIndex: map<string, Id>

    /**
      Rows are stored under their own id, ids were handed out before, and
      the unique columns `users.username` and `devices.device_identifier`
      hold no value twice.
     */
    ghost predicate Valid()
      reads this
    {
      && (forall k :: k in users ==> users[k].id == k && k < nextId)
      && (forall k :: k in devices ==> devices[k].id == k && k < nextId)
      && (forall k :: k in firmware ==> firmware[k].id == k && k < nextId)
      && (forall k :: k in updateJobs ==> updateJobs[k].id == k && k < nextId)
      && (forall i :: 0 <= i < |auditLogs| ==> auditLogs[i].id < nextId)
      && (forall k :: k in users ==> users[k].username in usernameIndex && usernameIndex[users[k].username] == k)
      && (forall k :: k in devices ==>
            devices[k].deviceIdentifier in identifierIndex && identifierIndex[devices[k].deviceIdentifier] == k)
    }

    constructor ()
      ensures Valid()
      ensures users == map[] && devices == map[] && firmware == map[] && updateJobs == map[]
      ensures auditLogs == [] && jobWrites == []
    {
      users, devices, firmware, updateJobs := map[], map[], map[], map[];
      auditLogs, nextId, jobWrites := [], 0, [];
      usernameIndex, identifierIndex := map[], map[];
    }

    // ---- users ----

    function GetUser(id: Id): (r: Option<User>)
      reads this
      ensures r.Some? <==> id in users
      ensures r.Some? ==> r.value == users[id]
    {
      if id in users then Some(users[id]) else None
    }

    /** The user with that username; usernames are unique, so there is at most one. */
    method GetUserByUsername(username: string) returns (r: Option<User>)
      requires Valid()
      ensures r.None? <==> !UsernameTaken(users, username)
      ensures forall k :: k in users && users[k].username == username ==> r == Some(users[k])
    {
      r := Find(users, (u: User) => u.username == username);
    }

    /** Inserts a user; the unique username column rejects a taken name. */
    method CreateUser(input: InsertUser, now: Millis) returns (r: Option<User>)
      requires Valid()
      modifies this`users, this`nextId, this`usernameIndex
      ensures Valid()
      ensures r.None? <==> UsernameTaken(old(users), input.username)
      ensures r.None? ==> users == old(users) && nextId == old(nextId)
      ensures r.Some? ==>
        && r.value == NewUser(old(nextId), input, now)
        && users == old(users)[r.value.id := r.value]
        && nextId == old(nextId) + 1
    {
      var existing := GetUserByUsername(input.username);
      if existing.Some? {
        return None;
      }
      var u := NewUser(nextId, input, now);
      users := users[u.id := u];
      usernameIndex := usernameIndex[u.username := u.id];
      nextId := nextId + 1;
      r := Some(u);
    }

    // ---- devices ----

    /** All devices, most recently seen first and never-seen devices before all others. */
    method GetDevices() returns (r: seq<Device>)
      ensures IsListing(devices, r)
      ensures Descending(r, DeviceLastSeenKey)
    {
      var rows;
      ghost var ks;
      rows, ks := Rows(devices);
      r := SortDesc(rows, DeviceLastSeenKey);
    }

    function GetDevice(id: Id): (r: Option<Device>)
      reads this
      ensures r.Some? <==> id in devices
      ensures r.Some? ==> r.value == devices[id]
    {
      if id in devices then Some(devices[id]) else None
    }

    /** The device with that identifier; identifiers are unique, so there is at most one. */
    method GetDeviceByIdentifier(identifier: string) returns (r: Option<Device>)
      requires Valid()
      ensures r.None? <==> !IdentifierTaken(devices, identifier)
      ensures forall k :: k in devices && devices[k].deviceIdentifier == identifier ==> r == Some(devices[k])
    {
      r := Find(devices, (d: Device) => d.deviceIdentifier == identifier);
    }

    /** Inserts a device; the unique identifier column rejects a taken identifier. */
    method CreateDevice(input: InsertDevice, now: Millis) returns (r: Option<Device>)
      requires Valid()
      modifies this`devices, this`nextId, this`identifierIndex
      ensures Valid()
      ensures r.None? <==> IdentifierTaken(old(devices), input.deviceIdentifier)
      ensures r.None? ==> devices == old(devices) && nextId == old(nextId)
      ensures r.Some? ==>
        && r.value == NewDevice(old(nextId), input, now)
        && devices == old(devices)[r.value.id := r.value]
        && nextId == old(nextId) + 1
    {
      var existing := GetDeviceByIdentifier(input.deviceIdentifier);
      if existing.Some? {
        return None;
      }
      var d := NewDevice(nextId, input, now);
      devices := devices[d.id := d];
      identifierIndex := identifierIndex[d.deviceIdentifier := d.id];
      nextId := nextId + 1;
      r := Some(d);
    }

    /** Stamps a device as seen now; no other column and no other row changes. */
    method UpdateDeviceLastSeen(id: Id, now: Millis)
      requires Valid()
      modifies this`devices
      ensures Valid()
      ensures devices.Keys == old(devices).Keys
      ensures forall k :: k in devices && k != id ==> devices[k] == old(devices)[k]
      ensures id in devices ==> devices[id] == old(devices)[id].(lastSeenAt := Some(now))
    {
      if id in devices {
        devices := devices[id := devices[id].(lastSeenAt := Some(now))];
      }
    }

    /** Points a device at a firmware; no other column and no other row changes. */
    method UpdateDeviceFirmware(id: Id, firmwareId: Id)
      requires Valid()
      modifies this`devices
      ensures Valid()
      ensures devices.Keys == old(devices).Keys
      ensures forall k :: k in devices && k != id ==> devices[k] == old(devices)[k]
      ensures id in devices ==> devices[id] == old(devices)[id].(currentFirmwareId := Some(firmwareId))
    {
      if id in devices {
        devices := devices[id := devices[id].(currentFirmwareId := Some(firmwareId))];
      }
    }

    // ---- firmware ----

    /** All firmware, newest first. */
    method GetFirmware() returns (r: seq<Firmware>)
      ensures IsListing(firmware, r)
      ensures Descending(r, FirmwareCreatedKey)
    {
      var rows;
      ghost var ks;
      rows, ks := Rows(firmware);
      r := SortDesc(rows, FirmwareCreatedKey);
    }

    function GetFirmwareById(id: Id): (r: Option<Firmware>)
      reads this
      ensures r.Some? <==> id in firmware
      ensures r.Some? ==> r.value == firmware[id]
    {
      if id in firmware then Some(firmware[id]) else None
    }

    method CreateFirmware(input: InsertFirmware, uploaderId: Id, storagePath: string,
                          sha256: string, hmac: string, now: Millis) returns (f: Firmware)
      requires Valid()
      modifies this`firmware, this`nextId
      ensures Valid()
      ensures f == NewFirmware(old(nextId), input, uploaderId, storagePath, sha256, hmac, now)
      ensures firmware == old(firmware)[f.id := f] && f.id !in old(firmware)
      ensures nextId == old(nextId) + 1
    {
      f := NewFirmware(nextId, input, uploaderId, storagePath, sha256, hmac, now);
      firmware := firmware[f.id := f];
      nextId := nextId + 1;
    }

    /** The firmware targeting one device group, newest first. */
    method GetFirmwareByDeviceGroup(deviceGroup: string) returns (r: seq<Firmware>)
      ensures IsListing(map k | k in firmware && firmware[k].targetDeviceGroup == deviceGroup :: firmware[k], r)
      ensures Descending(r, FirmwareCreatedKey)
      ensures forall f :: f in r ==> f in firmware.Values && f.targetDeviceGroup == deviceGroup
    {
      var inGroup := map k | k in firmware && firmware[k].targetDeviceGroup == deviceGroup :: firmware[k];
      var rows;
      ghost var ks;
      rows, ks := Rows(inGroup);
      r := SortDesc(rows, FirmwareCreatedKey);
      ListingRows(inGroup, r);
    }

    // ---- update jobs ----

    /** All update jobs, newest first. */
    method GetUpdateJobs() returns (r: seq<UpdateJob>)
      ensures IsListing(updateJobs, r)
      ensures Descending(r, JobCreatedKey)
    {
      var rows;
      ghost var ks;
      rows, ks := Rows(updateJobs);
      r := SortDesc(rows, JobCreatedKey);
    }

    function GetUpdateJob(id: Id): (r: Option<UpdateJob>)
      reads this
      ensures r.Some? <==> id in updateJobs
      ensures r.Some? ==> r.value == updateJobs[id]
    {
      if id in updateJobs then Some(updateJobs[id]) else None
    }

    method CreateUpdateJob(input: InsertUpdateJob, initiatedBy: Id, now: Millis) returns (j: UpdateJob)
      requires Valid()
      modifies this`updateJobs, this`nextId
      ensures Valid()
      ensures j == NewUpdateJob(old(nextId), input, initiatedBy, now)
      ensures updateJobs == old(updateJobs)[j.id := j] && j.id !in old(updateJobs)
      ensures nextId == old(nextId) + 1
    {
      j := NewUpdateJob(nextId, input, initiatedBy, now);
      updateJobs := updateJobs[j.id := j];
      nextId := nextId + 1;
    }

    /** Sets the progress counters of one job; nothing checks them against each other. */
    method UpdateUpdateJobProgress(id: Id, progress: int, completedDevices: int, failedDevices: int, now: Millis)
      requires Valid()
      modifies this`updateJobs, this`jobWrites
      ensures Valid()
      ensures updateJobs == ApplyWrite(old(updateJobs), SetProgress(id, progress, completedDevices, failedDevices, now))
      ensures jobWrites == old(jobWrites) + [SetProgress(id, progress, completedDevices, failedDevices, now)]
    {
      var w := SetProgress(id, progress, completedDevices, failedDevices, now);
      updateJobs := ApplyWrite(updateJobs, w);
      jobWrites := jobWrites + [w];
    }

    /** Sets the status of one job, whatever its current status is. */
    method UpdateUpdateJobStatus(id: Id, status: string, now: Millis)
      requires Valid()
      modifies this`updateJobs, this`jobWrites
      ensures Valid()
      ensures updateJobs == ApplyWrite(old(updateJobs), SetStatus(id, status, now))
      ensures jobWrites == old(jobWrites) + [SetStatus(id, status, now)]
    {
      var w := SetStatus(id, status, now);
      updateJobs := ApplyWrite(updateJobs, w);
      jobWrites := jobWrites + [w];
    }

    // ---- audit log ----

    method CreateAuditLog(input: InsertAuditLog, now: Millis) returns (a: AuditLog)
      requires Valid()
      modifies this`auditLogs, this`nextId
      ensures Valid()
      ensures a == NewAuditLog(old(nextId), input, now)
      ensures auditLogs == old(auditLogs) + [a]
      ensures nextId == old(nextId) + 1
    {
      a := NewAuditLog(nextId, input, now);
      auditLogs := auditLogs + [a];
      nextId := nextId + 1;
    }

    /** The `limit` newest audit entries, newest first. */
    method GetAuditLogs(limit: nat) returns (r: seq<AuditLog>)
      ensures exists s :: multiset(s) == multiset(auditLogs) && Descending(s, AuditCreatedKey) && r == Take(s, limit)
      ensures |r| == if |auditLogs| < limit then |auditLogs| else limit
      ensures Descending(r, AuditCreatedKey)
      ensures forall a :: a in r ==> a in auditLogs
    {
      var sorted := SortDesc(auditLogs, AuditCreatedKey);
      assert |sorted| == |multiset(sorted)| == |auditLogs|;
      r := Take(sorted, limit);
      forall a | a in r
        ensures a in auditLogs
      {
        assert a in multiset(sorted);
      }
    }

    // ---- dashboard ----

    method GetStats() returns (s: Stats)
      ensures s.totalDevices == |devices|
      ensures s.activeUpdates == CountWhere(updateJobs, IsInProgress)
      ensures s.firmwareVersions == CountWhere(firmware, IsActiveFirmware)
      ensures s.successRateTenths ==
        SuccessRateTenths(CountWhere(updateJobs, IsCompleted), CountWhere(updateJobs, IsFinished))
      ensures s.successRateTenths <= 1000
    {
      var deviceCount := CountRows(devices, Any);
      assert KeysWhere(devices, devices.Keys, Any) == devices.Keys;
      var active := CountRows(updateJobs, IsInProgress);
      var versions := CountRows(firmware, IsActiveFirmware);
      var completed := CountRows(updateJobs, IsCompleted);
      var finished := CountRows(updateJobs, IsFinished);
      CountWhereMonotone(updateJobs, IsCompleted, IsFinished);
      s := Stats(deviceCount, active, versions, SuccessRateTenths(completed, finished));
    }
  }
}
