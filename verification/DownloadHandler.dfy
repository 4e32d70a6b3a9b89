/** DownloadHandler.ServeHTTP with nothing interleaved, proved to be a run of module Downloads:
    whatever path it returns on, the slot and the active count are given back, and a handler that
    got a slot has written exactly one event. */
module DownloadHandler {
  import opened Common
  import D = Downloads
  import opened AuditQuery
  import AuditLog

  datatype Info = Info(fileName: string, fileSize: int, directURL: string)

  datatype ResolveError = PasswordRequired(text: string) | BadFormat(text: string) | Upstream(text: string) | Other(text: string)

  datatype Lookup = Found(provider: string) | NoProvider | BadURL(text: string)

  /** A request together with what the providers answer to it. */
  datatype Request = Request(
    username: string, clientIP: string, url: string,
    lookup: Lookup, resolved: Result<Info, ResolveError>, streamed: int, streamError: Option<string>)

  datatype Status = Served | BadRequest400 | Unauthorized401 | TooLarge413 | BadGateway502 | Busy503

  const NO_PROVIDER_TEXT: string := "no provider found for this URL"
  const SHORT_PREFIX: string := "https://we.tl/"
  const GIGABYTE: int := 1_073_741_824

  predicate ShortLink(r: Request) {
    r.lookup == Found("wetransfer") && "https://we.tl/" <= r.url
  }

  /** The file may be streamed: its provider is known, it is resolved, and its size is allowed. */
  predicate Streamable(r: Request, maxBytes: int) {
    r.lookup.Found? && r.resolved.Ok? && r.resolved.value.fileSize <= maxBytes
  }

  /** What a request that got a slot is answered. */
  predicate Answered(r: Request, maxBytes: int, status: Status) {
    && (status == Served <==> Streamable(r, maxBytes))
    && (!r.lookup.Found? ==> status == BadRequest400)
    && (r.lookup.Found? && r.resolved.Ok? && r.resolved.value.fileSize > maxBytes ==> status == TooLarge413)
    && (r.lookup.Found? && r.resolved.Err? ==>
          && (r.resolved.error.PasswordRequired? ==> status == Unauthorized401)
          && (r.resolved.error.BadFormat? ==> status == if ShortLink(r) then BadGateway502 else BadRequest400)
          && (r.resolved.error.Upstream? || r.resolved.error.Other? ==> status == BadGateway502))
  }

  /** Its one event: who, what and where from, and how it ended. */
  predicate Reported(r: Request, maxBytes: int, e: Event) {
    && e.user == r.username && e.ip == r.clientIP && e.url == r.url
    && e.provider == (if r.lookup.Found? then r.lookup.provider else "")
    && (Streamable(r, maxBytes) ==>
          && e.bytesTransferred == r.streamed
          && e.filename == r.resolved.value.fileName && e.fileSize == r.resolved.value.fileSize
          && (r.streamError.None? ==> e.action == "download_success" && e.detail == "success")
          && (r.streamError.Some? ==> e.action == "download_error" && e.detail == "error: " + r.streamError.value))
    && (!Streamable(r, maxBytes) ==> e.action == "download_error" && e.bytesTransferred == 0 && e.filename == "")
    && (r.lookup.Found? && r.resolved.Err? ==> e.detail == "error: " + r.resolved.error.text)
    && (r.lookup.NoProvider? ==> e.detail == "error: " + "no provider found for this URL")
    && (r.lookup.BadURL? ==> e.detail == "error: " + r.lookup.text)
    && (r.lookup.Found? && r.resolved.Ok? && r.resolved.value.fileSize > maxBytes ==> e.detail == "error: " + "file too large")
  }

  class Handler {
    const capacity: nat
    const maxURLLength: int
    const maxFileSizeGB: int
    const audit: AuditLog.Log  // shared with everybody else who logs
    var sem: nat               // the length of the slot channel

    ghost var mine: seq<Event>  // the events written here, among those of the shared log
    ghost var handlers: map<nat, D.Phase>
    ghost var log: seq<D.Entry>
    ghost var acquired: nat
    ghost var released: nat

    ghost function Abs(): D.Sys
      reads this, audit
    {
      D.Sys(capacity, sem, audit.active, handlers, log, acquired, released)
    }

    /** The events written here are the entries of the slot protocol, with their outcomes. */
    ghost predicate Valid()
      reads this, audit, audit.store
    {
      && audit.Valid() && audit.Open()
      && |mine| == |log|
      && (forall i :: 0 <= i < |log| ==>
            mine[i].action == (if log[i].ok then "download_success" else "download_error"))
    }

    /** The event is added here and at the end of the shared log. */
    twostate predicate Wrote(e: Event)
      reads this, audit
    {
      mine == old(mine) + [e] && audit.history == old(audit.history) + [e]
    }

    constructor (maxConcurrent: int, maxURLLength: int, maxFileSizeGB: int, audit: AuditLog.Log)
      requires audit.Valid() && audit.Open() && audit.active == 0
      ensures Valid() && Abs() == D.Initial(if maxConcurrent <= 0 then 50 else maxConcurrent)
      ensures this.maxURLLength == maxURLLength && this.maxFileSizeGB == maxFileSizeGB && this.audit == audit
    {
      capacity := if maxConcurrent <= 0 then 50 else maxConcurrent;
      this.maxURLLength, this.maxFileSizeGB, this.audit := maxURLLength, maxFileSizeGB, audit;
      sem, mine := 0, [];
      handlers, log, acquired, released := map[], [], 0, 0;
    }

    method StartDownload(ghost id: nat)
      requires Valid() && D.Enabled(Abs(), D.Start(id))
      modifies audit`active, this`handlers
      ensures Valid() && Abs() == D.Step(old(Abs()), D.Start(id))
    {
      audit.StartDownload();
      handlers := handlers[id := D.Streaming];
    }

    method EndDownload(ghost id: nat, ok: bool)
      requires Valid() && D.Enabled(Abs(), D.End(id, ok))
      modifies audit`active, this`handlers
      ensures Valid() && Abs() == D.Step(old(Abs()), D.End(id, ok))
    {
      audit.EndDownload();
      handlers := handlers[id := D.Streamed(ok)];
    }

    /** Appends one event to the shared log. */
    method Write(e: Event)
      requires audit.Valid() && audit.Open()
      modifies audit`events, audit`logins, audit`loginFails, audit`history, audit.store, this`mine
      ensures audit.Valid() && audit.Open()
      ensures Wrote(e)
    {
      audit.AddEvent(e, e.time);
      mine := mine + [e];
    }

    /** Writes the one event of a handler that holds a slot. */
    method LogDownload(ghost id: nat, ghost op: D.Op, r: Request, provider: string, info: Option<Info>,
                       n: int, err: Option<string>, now: int, dur: int)
      returns (ghost e: Event)
      requires Valid() && D.Enabled(Abs(), op) && op.id == id
      requires op == D.Fail(id) || op == D.Record(id)
      requires op == D.Fail(id) ==> err.Some?
      requires op == D.Record(id) ==> handlers[id] == D.Streamed(err.None?)
      modifies audit`events, audit`logins, audit`loginFails, audit`history, audit.store
      modifies this`mine, this`handlers, this`log
      ensures Valid() && Abs() == D.Step(old(Abs()), op) && Wrote(e)
      ensures && e.action == (if err.None? then "download_success" else "download_error")
              && e.detail == (if err.None? then "success" else "error: " + err.value)
              && e.user == r.username && e.ip == r.clientIP && e.url == r.url && e.provider == provider
              && (e.filename, e.fileSize, e.resolvedURL) ==
                 (if info.Some? then (info.value.fileName, info.value.fileSize, info.value.directURL) else ("", 0, ""))
              && e.bytesTransferred == n && e.durationMS == dur && e.time == now
    {
      var action, detail := "download_success", "success";
      var filename, filesize, resolvedURL := "", 0, "";
      if info.Some? {
        filename, filesize, resolvedURL := info.value.fileName, info.value.fileSize, info.value.directURL;
      }
      if err.Some? {
        detail := "error: " + err.value;
        action := "download_error";
      }
      var event := Event(now, action, r.username, r.clientIP, detail, r.url, provider,
                         filename, filesize, resolvedURL, n, dur, "", "");
      Write(event);
      e := event;
      handlers, log := handlers[id := D.Logged], log + [D.Entry(id, err.None?)];
    }

    /** A refusal: the error event, and nothing streamed. */
    method Refuse(ghost id: nat, r: Request, provider: string, text: string, now: int, dur: int)
      returns (ghost e: Event)
      requires Valid() && D.At(Abs(), id, D.Holding)
      modifies audit`events, audit`logins, audit`loginFails, audit`history, audit.store
      modifies this`mine, this`handlers, this`log
      ensures Valid() && Abs() == D.Step(old(Abs()), D.Fail(id)) && Wrote(e)
      ensures e.action == "download_error" && e.detail == "error: " + text
      ensures e.user == r.username && e.ip == r.clientIP && e.url == r.url && e.provider == provider
      ensures e.bytesTransferred == 0 && e.filename == ""
    {
      e := LogDownload(id, D.Fail(id), r, provider, None, 0, Some(text), now, dur);
    }

    /** The stream, counted as active while it lasts, and its event. */
    method StreamFile(ghost id: nat, r: Request, provider: string, info: Info, now: int, dur: int)
      returns (ghost e: Event)
      requires Valid() && D.At(Abs(), id, D.Holding)
      modifies audit, audit.store, this`mine, this`handlers, this`log
      ensures Valid() && Wrote(e)
      ensures Abs() == D.Noted(old(Abs()), id, r.streamError.None?)
      ensures e.action == (if r.streamError.None? then "download_success" else "download_error")
      ensures e.detail == (if r.streamError.None? then "success" else "error: " + r.streamError.value)
      ensures e.user == r.username && e.ip == r.clientIP && e.url == r.url && e.provider == provider
      ensures e.bytesTransferred == r.streamed && e.filename == info.fileName && e.fileSize == info.fileSize
    {
      D.StreamNotes(Abs(), id, r.streamError.None?);
      StartDownload(id);
      EndDownload(id, r.streamError.None?);
      e := LogDownload(id, D.Record(id), r, provider, Some(info), r.streamed, r.streamError, now, dur);
    }

    /** The part of the handler that runs with a slot, up to its return: whatever path it takes,
        the active count is as before and one event has been written. */
    method WithSlot(ghost id: nat, r: Request, now: int, dur: int) returns (status: Status, ghost e: Event)
      requires Valid() && D.At(Abs(), id, D.Holding)
      modifies audit, audit.store, this`mine, this`handlers, this`log
      ensures Valid() && Wrote(e)
      ensures Abs() == D.Noted(old(Abs()), id, status == Served && r.streamError.None?)
      ensures Answered(r, maxFileSizeGB * GIGABYTE, status) && Reported(r, maxFileSizeGB * GIGABYTE, e)
    {
      if !r.lookup.Found? {
        e := Refuse(id, r, "", if r.lookup.NoProvider? then NO_PROVIDER_TEXT else r.lookup.text, now, dur);
        status := BadRequest400;
      } else if r.resolved.Err? {
        e := Refuse(id, r, r.lookup.provider, r.resolved.error.text, now, dur);
        var isShortURL := r.lookup.provider == "wetransfer" && SHORT_PREFIX <= r.url;
        status := if r.resolved.error.PasswordRequired? then Unauthorized401
                  else if isShortURL || !r.resolved.error.BadFormat? then BadGateway502
                  else BadRequest400;
      } else if r.resolved.value.fileSize > maxFileSizeGB * GIGABYTE {
        e := Refuse(id, r, r.lookup.provider, "file too large", now, dur);
        status := TooLarge413;
      } else {
        e := StreamFile(id, r, r.lookup.provider, r.resolved.value, now, dur);
        status := Served;
      }
    }

    /** How the request goes when nothing interleaves: the wait for a slot succeeds exactly when
        one is free. */
    ghost function CourseOf(r: Request, status: Status): D.Course
      reads this
    {
      if r.url == "" || |r.url| > maxURLLength then D.TurnedAway(false)
      else if sem >= capacity then D.TurnedAway(true)
      else if status == Served then D.Streams(r.streamError.None?)
      else D.Unstreamed
    }

    /** The handler from the slot on: a slot is taken or not, and given back. */
    method Serve(ghost id: nat, r: Request, urlOk: bool, now: int, dur: int) returns (status: Status, ghost course: D.Course, ghost e: Event)
      requires Valid() && id !in handlers && (urlOk <==> r.url != "" && |r.url| <= maxURLLength)
      modifies this, audit, audit.store
      ensures Valid()
      ensures course == old(CourseOf(r, status)) && Abs() == D.Handled(old(Abs()), id, course)
      ensures course.TurnedAway? ==>
        audit.history == old(audit.history) && status == if course.urlOk then Busy503 else BadRequest400
      ensures !course.TurnedAway? ==>
        Wrote(e) && Answered(r, maxFileSizeGB * GIGABYTE, status) && Reported(r, maxFileSizeGB * GIGABYTE, e)
    {
      ghost var y := Abs();
      var got := false;
      if urlOk {
        got := TakeSlot(id);
      } else {
        handlers := handlers[id := D.Finished(false)];
      }
      if got {
        status, e := UseSlot(id, r, now, dur);
      } else {
        status, e := if urlOk then Busy503 else BadRequest400, *;
      }
      course := old(CourseOf(r, status));
      if got {
        D.SeatedServes(y, id, course);
      }
    }

    /** Every return path is a course of the slot protocol: the slot and the active count are given
        back, and one event is written if and only if a slot was held. A file is served exactly
        when the URL is accepted, a slot is free and the file may be streamed. */
    method ServeHTTP(ghost id: nat, r: Request, now: int, dur: int)
      returns (status: Status, ghost course: D.Course, ghost e: Event)
      requires Valid() && id !in handlers
      modifies this, audit, audit.store
      ensures Valid()
      ensures course == old(CourseOf(r, status))
      ensures Abs() == D.Handled(old(Abs()), id, course)
      ensures D.CanRun(old(Abs()), D.Ops(id, course)) && Abs() == D.Run(old(Abs()), D.Ops(id, course))
      ensures course.TurnedAway? ==>
        audit.history == old(audit.history) && status == if course.urlOk then Busy503 else BadRequest400
      ensures !course.TurnedAway? ==>
        Wrote(e) && Answered(r, maxFileSizeGB * 1_073_741_824, status) && Reported(r, maxFileSizeGB * 1_073_741_824, e)
      ensures status == Served <==>
        r.url != "" && |r.url| <= maxURLLength && old(sem) < capacity && Streamable(r, maxFileSizeGB * 1_073_741_824)
      ensures sem == old(sem) && audit.active == old(audit.active)
    {
      ghost var y := Abs();
      status, course, e := Serve(id, r, r.url != "" && |r.url| <= maxURLLength, now, dur);
      D.HandledIsRun(y, id, course);
    }

    /** The part of the handler that runs with a slot, and the deferred release at its return. */
    method UseSlot(ghost id: nat, r: Request, now: int, dur: int) returns (status: Status, ghost e: Event)
      requires Valid() && D.At(Abs(), id, D.Holding) && sem > 0
      modifies this`sem, this`mine, this`handlers, this`log, this`released, audit, audit.store
      ensures Valid() && Wrote(e)
      ensures Abs() == D.Step(D.Noted(old(Abs()), id, status == Served && r.streamError.None?), D.Release(id))
      ensures Answered(r, maxFileSizeGB * GIGABYTE, status) && Reported(r, maxFileSizeGB * GIGABYTE, e)
    {
      status, e := WithSlot(id, r, now, dur);
      Unlock(id);
    }

    /** The select on the slot channel and the timer. */
    method TakeSlot(ghost id: nat) returns (got: bool)
      requires Valid() && id !in handlers
      modifies this`sem, this`handlers, this`acquired
      ensures Valid() && got == (old(sem) < capacity)
      ensures Abs() == if got then D.Seated(old(Abs()), id) else D.Move(old(Abs()), id, D.Finished(false))
    {
      if sem >= capacity {
        handlers := handlers[id := D.Finished(false)];
        return false;
      }
      sem := sem + 1;
      handlers, acquired := handlers[id := D.Holding], acquired + 1;
      got := true;
    }

    /** The deferred receive from the slot channel. */
    method Unlock(ghost id: nat)
      requires Valid() && D.Enabled(Abs(), D.Release(id))
      modifies this`sem, this`handlers, this`released
      ensures Valid() && Abs() == D.Step(old(Abs()), D.Release(id))
    {
      sem := sem - 1;
      handlers, released := handlers[id := D.Finished(true)], released + 1;
    }
  }
}
