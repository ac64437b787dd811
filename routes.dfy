/** The routes that change or summarise the store: the two tracking
    endpoints with their one-event-per-type rule, starting a campaign,
    creating a campaign from an uploaded recipient file, deleting a campaign,
    and the statistics of the campaign detail page.

    Flask's request, session and response machinery is reduced to the
    values the handlers read (form fields, the uploaded file, the session's
    credentials) and the outcome they report. */
module Routes {
  import opened Common
  import opened Text
  import opened Models
  import opened Utils
  import opened Sender

  // ---------------------------------------------------------------------
  // Tracking
  // ---------------------------------------------------------------------

  /** The GIF89a signature. */
  const GifSignature: seq<bv8> := [0x47, 0x49, 0x46, 0x38, 0x39, 0x61]

  /** The logical screen descriptor: width 1, height 1, a two-entry global
      colour table. */
  const ScreenDescriptor: seq<bv8> := [0x01, 0x00, 0x01, 0x00, 0x80, 0x00, 0x00]

  /** The rest of the image: colour table, transparency extension, image
      descriptor and the one-pixel image data. */
  const PixelBody: seq<bv8> := [
    0xff, 0xff, 0xff, 0x00, 0x00, 0x00, 0x21, 0xf9, 0x04, 0x01, 0x00, 0x00, 0x00, 0x00, 0x2c,
    0x00, 0x00, 0x00, 0x00, 0x01, 0x00, 0x01, 0x00, 0x00, 0x02, 0x02, 0x44, 0x01, 0x00]

  /** The bytes `track_open` answers with: a 1x1 transparent GIF, ending in
      the trailer byte. */
  const TransparentGif: seq<bv8> := GifSignature + ScreenDescriptor + PixelBody + [0x3b]

  /** A little-endian 16-bit field of a byte string. */
  function Word16(bytes: seq<bv8>, at: nat): nat
    requires at + 1 < |bytes|
  {
    bytes[at] as nat + 256 * bytes[at + 1] as nat
  }

  /** The pixel is a complete GIF89a image: 43 bytes, the signature, a
      logical screen of width 1 and height 1, and the trailer byte. */
  lemma TransparentGifIsOnePixel()
    ensures |TransparentGif| == 43
    ensures TransparentGif[..6] == GifSignature
    ensures Word16(TransparentGif, 6) == 1 && Word16(TransparentGif, 8) == 1
    ensures TransparentGif[42] == 0x3b
  {
    var g := TransparentGif;
    assert g[..6] == GifSignature;
    assert g[6..13] == ScreenDescriptor;
  }

  /** The event table and its next key after one tracking request. */
  datatype Logged = Logged(events: map<Id, TrackingEvent>, nextEvent: Id)

  /** What `track_open` (kind `Open`) and `track_click` (kind `Click`) do to
      the event table: append one event of that kind for the recipient, but
      only when the recipient exists and has no event of that kind yet.
      Events are only ever added; an unknown recipient or a repeat changes
      nothing; otherwise exactly one row, under the next key and stamped with
      the request time, is added; afterwards a known recipient has an event
      of that kind. */
  function LogOnce(rs: map<Id, Recipient>, es: map<Id, TrackingEvent>, next: Id,
                   rid: Id, kind: EventType, now: Timestamp): (r: Logged)
    ensures next !in es ==> forall e :: e in es ==> e in r.events && r.events[e] == es[e]
    ensures rid !in rs || HasEvent(es, rid, kind) ==> r == Logged(es, next)
    ensures rid in rs && !HasEvent(es, rid, kind) ==>
      && r.nextEvent == next + 1
      && r.events.Keys == es.Keys + {next}
      && r.events[next] == TrackingEvent(rid, kind, now)
      && forall e :: e in es && e != next ==> r.events[e] == es[e]
    ensures rid in rs ==> HasEvent(r.events, rid, kind)
    ensures r.nextEvent <= next + 1
  {
    if rid in rs && !HasEvent(es, rid, kind) then
      var es' := es[next := TrackingEvent(rid, kind, now)];
      assert es'[next].recipient == rid && es'[next].kind == kind;
      Logged(es', next + 1)
    else Logged(es, next)
  }

  /** A tracking request keeps the store consistent; in particular there is
      still at most one event of each kind per recipient. */
  lemma LogOnceConsistent(cs: map<Id, Campaign>, rs: map<Id, Recipient>, es: map<Id, TrackingEvent>,
                          nc: Id, nr: Id, ne: Id, rid: Id, kind: EventType, now: Timestamp)
    requires Consistent(cs, rs, es, nc, nr, ne)
    ensures var r := LogOnce(rs, es, ne, rid, kind, now);
      Consistent(cs, rs, r.events, nc, nr, r.nextEvent)
  {
    var r := LogOnce(rs, es, ne, rid, kind, now);
    if rid in rs && !HasEvent(es, rid, kind) {
      forall e1, e2 | e1 in r.events && e2 in r.events && e1 != e2
                      && r.events[e1].recipient == r.events[e2].recipient
        ensures r.events[e1].kind != r.events[e2].kind
      {
        if e1 == ne {
          assert !(es[e2].recipient == rid && es[e2].kind == kind);
        } else if e2 == ne {
          assert !(es[e1].recipient == rid && es[e1].kind == kind);
        }
      }
    }
  }

  /** A second identical request changes nothing. */
  lemma LogOnceIdempotent(rs: map<Id, Recipient>, es: map<Id, TrackingEvent>, next: Id,
                          rid: Id, kind: EventType, now: Timestamp, later: Timestamp)
    ensures var r := LogOnce(rs, es, next, rid, kind, now);
      LogOnce(rs, r.events, r.nextEvent, rid, kind, later) == r
  {
  }

  /** The events of one kind a recipient has. */
  function EventsOfKind(es: map<Id, TrackingEvent>, rid: Id, kind: EventType): set<Id>
  {
    set e | e in es && es[e].recipient == rid && es[e].kind == kind
  }

  /** A tracking request for one recipient and kind leaves every other
      recipient and kind alone: whether it has such an event, and which
      events those are. */
  lemma LogOnceFrame(rs: map<Id, Recipient>, es: map<Id, TrackingEvent>, next: Id,
                     rid: Id, kind: EventType, now: Timestamp, other: Id, k: EventType)
    requires next !in es
    requires other != rid || k != kind
    ensures var r := LogOnce(rs, es, next, rid, kind, now);
      && (HasEvent(r.events, other, k) <==> HasEvent(es, other, k))
      && EventsOfKind(r.events, other, k) == EventsOfKind(es, other, k)
  {
    var r := LogOnce(rs, es, next, rid, kind, now);
    if rid in rs && !HasEvent(es, rid, kind) {
      if HasEvent(r.events, other, k) {
        var e :| e in r.events && r.events[e].recipient == other && r.events[e].kind == k;
        assert e != next && e in es;
      }
      if HasEvent(es, other, k) {
        var e :| e in es && es[e].recipient == other && es[e].kind == k;
        assert r.events[e] == es[e];
      }
      assert EventsOfKind(r.events, other, k) == EventsOfKind(es, other, k);
    }
  }

  /** The counts after one more open (or click) by a recipient who had none. */
  function Bump(c: Counts, kind: EventType): Counts
  {
    match kind
    case Open => c.(opens := c.opens + 1)
    case Click => c.(clicks := c.clicks + 1)
  }

  /** What a tracking request does to `to_dict`'s counts: a first open (or
      click) by a known recipient raises that count of its own campaign by
      one; every other count of every campaign is unchanged. */
  lemma LogOnceCounts(rs: map<Id, Recipient>, es: map<Id, TrackingEvent>, next: Id,
                      rid: Id, kind: EventType, now: Timestamp, cid: Id)
    requires next !in es
    ensures var r := LogOnce(rs, es, next, rid, kind, now);
      CampaignCounts(rs, r.events, cid)
        == if rid in rs && rs[rid].campaign == cid && !HasEvent(es, rid, kind)
           then Bump(CampaignCounts(rs, es, cid), kind)
           else CampaignCounts(rs, es, cid)
  {
    var r := LogOnce(rs, es, next, rid, kind, now);
    var other := match kind case Open => Click case Click => Open;
    forall x | x in rs ensures HasEvent(r.events, x, other) <==> HasEvent(es, x, other) {
      LogOnceFrame(rs, es, next, rid, kind, now, x, other);
    }
    assert WithEvent(rs, r.events, cid, other) == WithEvent(rs, es, cid, other);
    forall x | x in rs && x != rid ensures HasEvent(r.events, x, kind) <==> HasEvent(es, x, kind) {
      LogOnceFrame(rs, es, next, rid, kind, now, x, kind);
    }
    var before := WithEvent(rs, es, cid, kind);
    var after := WithEvent(rs, r.events, cid, kind);
    if rid in rs && rs[rid].campaign == cid && !HasEvent(es, rid, kind) {
      assert after == before + {rid};
      assert rid !in before;
      assert |after| == |before| + 1;
    } else {
      assert after == before;
    }
  }

  /** Requests for the same recipient and kind at the given times, in turn. */
  function LogRepeatedly(rs: map<Id, Recipient>, es: map<Id, TrackingEvent>, next: Id,
                         rid: Id, kind: EventType, times: seq<Timestamp>): Logged
    decreases |times|
  {
    if times == [] then Logged(es, next)
    else
      var r := LogOnce(rs, es, next, rid, kind, times[0]);
      LogRepeatedly(rs, r.events, r.nextEvent, rid, kind, times[1..])
  }

  /** However many times a known recipient's pixel is loaded (or link
      followed), the store ends up consistent with exactly one event of that
      kind for the recipient. */
  lemma {:induction false} RepeatedRequestsLeaveOneEvent(cs: map<Id, Campaign>, rs: map<Id, Recipient>,
                                                         es: map<Id, TrackingEvent>, nc: Id, nr: Id, ne: Id,
                                                         rid: Id, kind: EventType, times: seq<Timestamp>)
    requires Consistent(cs, rs, es, nc, nr, ne) && rid in rs && times != []
    ensures var r := LogRepeatedly(rs, es, ne, rid, kind, times);
      Consistent(cs, rs, r.events, nc, nr, r.nextEvent) && |EventsOfKind(r.events, rid, kind)| == 1
    decreases |times|
  {
    var r1 := LogOnce(rs, es, ne, rid, kind, times[0]);
    LogOnceConsistent(cs, rs, es, nc, nr, ne, rid, kind, times[0]);
    if |times| == 1 {
      assert LogRepeatedly(rs, r1.events, r1.nextEvent, rid, kind, times[1..]) == r1;
      OneEventOfKind(r1.events, rid, kind);
    } else {
      RepeatedRequestsLeaveOneEvent(cs, rs, r1.events, nc, nr, r1.nextEvent, rid, kind, times[1..]);
    }
  }

  /** Under the at-most-one rule, a recipient that has an event of a kind has
      exactly one. */
  lemma OneEventOfKind(es: map<Id, TrackingEvent>, rid: Id, kind: EventType)
    requires UniqueEvents(es) && HasEvent(es, rid, kind)
    ensures |EventsOfKind(es, rid, kind)| == 1
  {
    var e :| e in es && es[e].recipient == rid && es[e].kind == kind;
    assert EventsOfKind(es, rid, kind) == {e};
  }

  /** `track_open`: log the open once, answer with the pixel. */
  method TrackOpen(db: Database, rid: Id, now: Timestamp) returns (pixel: seq<bv8>)
    requires db.Valid()
    modifies db
    ensures db.Valid()
    ensures pixel == TransparentGif
    ensures Logged(db.events, db.nextEventId)
         == LogOnce(old(db.recipients), old(db.events), old(db.nextEventId), rid, Open, now)
    ensures db.campaigns == old(db.campaigns) && db.recipients == old(db.recipients)
    ensures db.nextCampaignId == old(db.nextCampaignId) && db.nextRecipientId == old(db.nextRecipientId)
  {
    LogOnceConsistent(db.campaigns, db.recipients, db.events, db.nextCampaignId, db.nextRecipientId,
                      db.nextEventId, rid, Open, now);
    if rid in db.recipients {
      var seen := HasEvent(db.events, rid, Open);
      if !seen {
        db.events := db.events[db.nextEventId := TrackingEvent(rid, Open, now)];
        db.nextEventId := db.nextEventId + 1;
      }
    }
    pixel := TransparentGif;
  }

  /** `track_click`: log the click once. */
  method TrackClick(db: Database, rid: Id, now: Timestamp)
    requires db.Valid()
    modifies db
    ensures db.Valid()
    ensures Logged(db.events, db.nextEventId)
         == LogOnce(old(db.recipients), old(db.events), old(db.nextEventId), rid, Click, now)
    ensures db.campaigns == old(db.campaigns) && db.recipients == old(db.recipients)
    ensures db.nextCampaignId == old(db.nextCampaignId) && db.nextRecipientId == old(db.nextRecipientId)
  {
    LogOnceConsistent(db.campaigns, db.recipients, db.events, db.nextCampaignId, db.nextRecipientId,
                      db.nextEventId, rid, Click, now);
    if rid in db.recipients {
      var seen := HasEvent(db.events, rid, Click);
      if !seen {
        db.events := db.events[db.nextEventId := TrackingEvent(rid, Click, now)];
        db.nextEventId := db.nextEventId + 1;
      }
    }
  }

  // ---------------------------------------------------------------------
  // start_campaign
  // ---------------------------------------------------------------------

  /** How `start_campaign` ends: 404, back to the login page, or back to the
      dashboard with the launch reported as started or as failed. */
  datatype StartOutcome = NotFound | SessionExpired | Launched | LaunchFailed

  datatype Started = Started(outcome: StartOutcome, campaigns: map<Id, Campaign>)

  /** `start_campaign` on the campaigns table. The session's credentials must
      both be non-empty; the campaign is then marked `Sending` whatever its
      status was, and put back to `Draft` when launching the worker raises.
      Only the status of campaign `cid` can change. */
  function Start(cs: map<Id, Campaign>, cid: Id, email: Option<string>, password: Option<string>,
                 launchRaises: bool): (r: Started)
    ensures r.outcome == NotFound <==> cid !in cs
    ensures r.outcome == SessionExpired <==> cid in cs && !(Truthy(email) && Truthy(password))
    ensures r.outcome in {NotFound, SessionExpired} ==> r.campaigns == cs
    ensures r.outcome == Launched <==> cid in cs && Truthy(email) && Truthy(password) && !launchRaises
    ensures r.outcome == Launched ==> r.campaigns == cs[cid := cs[cid].(status := Sending)]
    ensures r.outcome == LaunchFailed ==> r.campaigns == cs[cid := cs[cid].(status := Draft)]
  {
    if cid !in cs then Started(NotFound, cs)
    else if !Truthy(email) || !Truthy(password) then Started(SessionExpired, cs)
    else
      var sending := cs[cid := cs[cid].(status := Sending)];
      if launchRaises then Started(LaunchFailed, sending[cid := sending[cid].(status := Draft)])
      else Started(Launched, sending)
  }

  /** Starting keeps the store consistent. */
  lemma StartConsistent(cs: map<Id, Campaign>, rs: map<Id, Recipient>, es: map<Id, TrackingEvent>,
                        nc: Id, nr: Id, ne: Id, cid: Id, email: Option<string>,
                        password: Option<string>, launchRaises: bool)
    requires Consistent(cs, rs, es, nc, nr, ne)
    ensures Consistent(Start(cs, cid, email, password, launchRaises).campaigns, rs, es, nc, nr, ne)
  {
  }

  /** Nothing checks the campaign's current status: a completed (or failed,
      or already sending) campaign is started again just the same. */
  lemma StartIgnoresPriorStatus(cs: map<Id, Campaign>, cid: Id, email: string, password: string,
                                st: CampaignStatus)
    requires cid in cs && email != "" && password != ""
    ensures var cs' := cs[cid := cs[cid].(status := st)];
      Start(cs', cid, Some(email), Some(password), false).outcome == Launched
      && Start(cs', cid, Some(email), Some(password), false).campaigns[cid].status == Sending
  {
  }

  /** What starting a campaign again after a run leads to: the run left no
      recipient of it `Pending`, so the next run sends nothing and only sets
      the status again. */
  lemma RestartSendsNothing(cs: map<Id, Campaign>, rs: map<Id, Recipient>, next: Id, cid: Id,
                            sender: string, smtp: Smtp, clock: nat -> Timestamp,
                            smtp2: Smtp, clock2: nat -> Timestamp)
    requires KeysBelow(rs, next) && cid in cs && smtp.opens
    ensures var first := Dispatch(cs, rs, next, cid, sender, smtp, clock);
      var second := Dispatch(first.campaigns, first.recipients, next, cid, sender, smtp2, clock2);
      second.mails == [] && second.recipients == first.recipients
  {
    var first := Dispatch(cs, rs, next, cid, sender, smtp, clock);
    DispatchLeavesNoPending(cs, rs, next, cid, sender, smtp, clock);
    var snap := PendingSnapshot(first.recipients, cid, next);
    assert snap == [];
  }

  /** `start_campaign`. `launchRaises` says whether starting the worker
      thread raised; the worker itself is `Sender.SendAsync`. */
  method StartCampaign(db: Database, cid: Id, email: Option<string>, password: Option<string>,
                       launchRaises: bool)
    returns (outcome: StartOutcome)
    requires db.Valid()
    modifies db
    ensures db.Valid()
    ensures Started(outcome, db.campaigns) == Start(old(db.campaigns), cid, email, password, launchRaises)
    ensures db.recipients == old(db.recipients) && db.events == old(db.events)
    ensures db.nextCampaignId == old(db.nextCampaignId) && db.nextRecipientId == old(db.nextRecipientId)
            && db.nextEventId == old(db.nextEventId)
  {
    StartConsistent(db.campaigns, db.recipients, db.events, db.nextCampaignId, db.nextRecipientId,
                    db.nextEventId, cid, email, password, launchRaises);
    if cid !in db.campaigns {
      return NotFound;
    }
    if !Truthy(email) || !Truthy(password) {
      return SessionExpired;
    }
    db.campaigns := db.campaigns[cid := db.campaigns[cid].(status := Sending)];
    if launchRaises {
      db.campaigns := db.campaigns[cid := db.campaigns[cid].(status := Draft)];
      return LaunchFailed;
    }
    return Launched;
  }

  // ---------------------------------------------------------------------
  // create_campaign
  // ---------------------------------------------------------------------

  /** The form fields `create_campaign` reads. */
  datatype Form = Form(
    name: string,
    subject: string,
    body: string,
    columnSelect: Option<string>,     // `email_column_select`
    columnText: Option<string>)       // `email_column_text`

  /** The uploaded `recipient_file`: its name and the sheet read from it, or
      the text of the exception reading it raised. */
  datatype Upload = Upload(filename: string, sheet: Result<Table, string>)

  /** `request.form.get('email_column_select') or request.form.get('email_column_text')`. */
  function EmailColumn(form: Form): (col: Option<string>)
    ensures Truthy(form.columnSelect) ==> col == form.columnSelect
    ensures !Truthy(form.columnSelect) ==> col == form.columnText
    ensures Truthy(col) <==> Truthy(form.columnSelect) || Truthy(form.columnText)
  {
    if Truthy(form.columnSelect) then form.columnSelect else form.columnText
  }

  /** `bool(file)`: an upload is present when it has a non-empty file name. */
  predicate FilePresent(upload: Option<Upload>)
  {
    upload.Some? && upload.value.filename != ""
  }

  datatype Rejection = MissingFileOrColumn | ParseError(message: string) | NoValidEmails

  /** The checks `create_campaign` makes before writing anything. */
  datatype Intake = Rejected(reason: Rejection) | Accepted(emails: seq<string>)

  /** The checks in order: a file and a column are required; a parse error
      with a non-empty message is reported; an empty or missing email list is
      refused; otherwise the parsed emails are accepted. A submission is
      accepted exactly when a file and a column are given, the sheet was read
      and has that column, and the column yields at least one email. */
  function Review(form: Form, upload: Option<Upload>): (d: Intake)
    ensures !FilePresent(upload) || !Truthy(EmailColumn(form)) ==> d == Rejected(MissingFileOrColumn)
    ensures d.Accepted? <==>
      && FilePresent(upload) && Truthy(EmailColumn(form))
      && upload.value.sheet.Ok? && EmailColumn(form).value in upload.value.sheet.value
      && ParseEmails(upload.value.sheet.value[EmailColumn(form).value]) != []
    ensures d.Accepted? ==> d.emails == ParseEmails(upload.value.sheet.value[EmailColumn(form).value])
    ensures d.Rejected? && d.reason.ParseError? ==> d.reason.message != ""
  {
    var col := EmailColumn(form);
    if !FilePresent(upload) || !Truthy(col) then Rejected(MissingFileOrColumn)
    else
      var p := ParseRecipientFile(upload.value.sheet, col.value);
      if Truthy(p.error) then Rejected(ParseError(p.error.value))
      else if p.emails.None? || p.emails.value == [] then Rejected(NoValidEmails)
      else Accepted(p.emails.value)
  }

  /** A column the sheet lacks is reported with a message naming it. */
  lemma MissingColumnReported(form: Form, filename: string, table: Table)
    requires filename != "" && Truthy(EmailColumn(form)) && EmailColumn(form).value !in table
    ensures Review(form, Some(Upload(filename, Ok(table))))
         == Rejected(ParseError(MissingColumnMessage(EmailColumn(form).value)))
  {
  }

  /** A read error whose message is empty is not reported as an error (the
      test is on the message's truth value); the missing list is then
      reported as no valid emails. */
  lemma EmptyErrorMessageFallsThrough(form: Form, filename: string)
    requires filename != "" && Truthy(EmailColumn(form))
    ensures Review(form, Some(Upload(filename, Err("")))) == Rejected(NoValidEmails)
  {
  }

  /** The recipient rows for an accepted list: one per email, in list order,
      keyed from `base` upward, each `Pending` with no send time. */
  function NewRecipients(cid: Id, emails: seq<string>, base: Id): (m: map<Id, Recipient>)
    ensures forall id :: id in m <==> base <= id < base + |emails|
    ensures forall k :: 0 <= k < |emails| ==> m[base + k] == NewRecipient(cid, emails[k])
  {
    map id | id in KeyRange(base, |emails|) :: NewRecipient(cid, emails[id - base])
  }

  /** The keys `[lo, lo + n)`. */
  function KeyRange(lo: Id, n: nat): (r: set<Id>)
    ensures forall id :: id in r <==> lo <= id < lo + n
    ensures |r| == n
  {
    if n == 0 then {} else KeyRange(lo, n - 1) + {lo + n - 1}
  }

  /** The rows written for an accepted submission. */
  datatype Created = Created(campaigns: map<Id, Campaign>, recipients: map<Id, Recipient>)

  function Create(cs: map<Id, Campaign>, rs: map<Id, Recipient>, nc: Id, nr: Id,
                  form: Form, emails: seq<string>, now: Timestamp): Created
  {
    Created(cs[nc := NewCampaign(form.name, form.subject, form.body, now)],
            rs + NewRecipients(nc, emails, nr))
  }

  /** Creating keeps the store consistent. */
  lemma CreateConsistent(cs: map<Id, Campaign>, rs: map<Id, Recipient>, es: map<Id, TrackingEvent>,
                         nc: Id, nr: Id, ne: Id, form: Form, emails: seq<string>, now: Timestamp)
    requires Consistent(cs, rs, es, nc, nr, ne)
    ensures var c := Create(cs, rs, nc, nr, form, emails, now);
      Consistent(c.campaigns, c.recipients, es, nc + 1, nr + |emails|, ne)
  {
    var c := Create(cs, rs, nc, nr, form, emails, now);
    var added := NewRecipients(nc, emails, nr);
    var rs' := c.recipients;
    forall id | id in rs'
      ensures id < nr + |emails| && rs'[id].campaign in c.campaigns
      ensures rs'[id].sentAt.Some? <==> rs'[id].status == Sent
    {
      if id in added {
        assert added[nr + (id - nr)] == NewRecipient(nc, emails[id - nr]);
      } else {
        assert rs'[id] == rs[id];
      }
    }
    forall e | e in es ensures es[e].recipient in rs' {
      assert es[e].recipient in rs;
    }
  }

  /** The new campaign starts as a `Draft` with exactly one recipient per
      email and nothing sent, opened or clicked. */
  lemma CreatedCampaignCounts(cs: map<Id, Campaign>, rs: map<Id, Recipient>, es: map<Id, TrackingEvent>,
                              nc: Id, nr: Id, ne: Id, form: Form, emails: seq<string>, now: Timestamp)
    requires Consistent(cs, rs, es, nc, nr, ne)
    ensures var c := Create(cs, rs, nc, nr, form, emails, now);
      && c.campaigns[nc].status == Draft
      && CampaignCounts(c.recipients, es, nc) == Counts(|emails|, 0, 0, 0)
  {
    var c := Create(cs, rs, nc, nr, form, emails, now);
    var rs' := c.recipients;
    var added := NewRecipients(nc, emails, nr);
    forall id | id in rs'
      ensures rs'[id].campaign == nc <==> id in KeyRange(nr, |emails|)
      ensures rs'[id].campaign == nc ==> rs'[id].status == Pending
    {
      if id in added {
        assert added[nr + (id - nr)] == NewRecipient(nc, emails[id - nr]);
      } else {
        assert rs'[id] == rs[id] && rs[id].campaign in cs;
      }
    }
    forall id, k | id in KeyRange(nr, |emails|) ensures !HasEvent(es, id, k) {
      forall e | e in es ensures es[e].recipient != id {
        assert es[e].recipient in rs;
      }
    }
    assert RecipientsOf(rs', nc) == KeyRange(nr, |emails|);
    assert WithStatus(rs', nc, Sent) == {};
    assert WithEvent(rs', es, nc, Open) == {};
    assert WithEvent(rs', es, nc, Click) == {};
  }

  /** `create_campaign`: review the submission; when it is accepted, add the
      `Draft` campaign and then its recipients. Returns the review and, when
      accepted, the new campaign's id. */
  method CreateCampaign(db: Database, form: Form, upload: Option<Upload>, now: Timestamp)
    returns (d: Intake, created: Option<Id>)
    requires db.Valid()
    modifies db
    ensures db.Valid()
    ensures d == Review(form, upload)
    ensures d.Rejected? ==>
      && created == None && db.campaigns == old(db.campaigns)
      && db.recipients == old(db.recipients) && db.nextCampaignId == old(db.nextCampaignId)
      && db.nextRecipientId == old(db.nextRecipientId)
    ensures d.Accepted? ==>
      var c := Create(old(db.campaigns), old(db.recipients), old(db.nextCampaignId),
                      old(db.nextRecipientId), form, d.emails, now);
      && created == Some(old(db.nextCampaignId))
      && db.campaigns == c.campaigns && db.recipients == c.recipients
      && db.nextCampaignId == old(db.nextCampaignId) + 1
      && db.nextRecipientId == old(db.nextRecipientId) + |d.emails|
    ensures db.events == old(db.events) && db.nextEventId == old(db.nextEventId)
  {
    d := Review(form, upload);
    if d.Rejected? {
      return d, None;
    }
    var cid := AddCampaign(db, form, d.emails, now);
    created := Some(cid);
  }

  /** The accepted branch of `create_campaign`: the campaign row is added
      and committed, then one recipient row per address is added and
      committed. Both commits succeed. */
  method AddCampaign(db: Database, form: Form, emails: seq<string>, now: Timestamp) returns (cid: Id)
    requires db.Valid()
    modifies db
    ensures db.Valid()
    ensures var c := Create(old(db.campaigns), old(db.recipients), old(db.nextCampaignId),
                            old(db.nextRecipientId), form, emails, now);
      && cid == old(db.nextCampaignId)
      && db.campaigns == c.campaigns && db.recipients == c.recipients
      && db.nextCampaignId == old(db.nextCampaignId) + 1
      && db.nextRecipientId == old(db.nextRecipientId) + |emails|
    ensures db.events == old(db.events) && db.nextEventId == old(db.nextEventId)
  {
    var cs, rs, nr := db.campaigns, db.recipients, db.nextRecipientId;
    cid := db.nextCampaignId;
    CreateConsistent(cs, rs, db.events, cid, nr, db.nextEventId, form, emails, now);
    var c := Create(cs, rs, cid, nr, form, emails, now);
    db.campaigns, db.recipients := c.campaigns, c.recipients;
    db.nextCampaignId, db.nextRecipientId := cid + 1, nr + |emails|;
  }

  // ---------------------------------------------------------------------
  // delete_campaign
  // ---------------------------------------------------------------------

  /** `delete_campaign`: 404 for an unknown id, otherwise the campaign goes
      and the cascades take its recipients and their events with it. */
  method DeleteCampaign(db: Database, cid: Id) returns (found: bool)
    requires db.Valid()
    modifies db
    ensures db.Valid()
    ensures found == (cid in old(db.campaigns))
    ensures !found ==> db.campaigns == old(db.campaigns) && db.recipients == old(db.recipients)
                       && db.events == old(db.events)
    ensures found ==> db.campaigns == old(db.campaigns) - {cid}
                      && db.recipients == RecipientsAfterDelete(old(db.recipients), cid)
                      && db.events == EventsAfterDelete(old(db.recipients), old(db.events), cid)
    ensures db.nextCampaignId == old(db.nextCampaignId) && db.nextRecipientId == old(db.nextRecipientId)
            && db.nextEventId == old(db.nextEventId)
  {
    found := cid in db.campaigns;
    if !found {
      return;
    }
    CascadeDelete(db.campaigns, db.recipients, db.events, db.nextCampaignId, db.nextRecipientId,
                  db.nextEventId, cid);
    db.events := EventsAfterDelete(db.recipients, db.events, cid);
    db.recipients := RecipientsAfterDelete(db.recipients, cid);
    db.campaigns := db.campaigns - {cid};
  }

  // ---------------------------------------------------------------------
  // campaign_detail statistics
  // ---------------------------------------------------------------------

  /** `campaign.recipients`: the campaign's recipient ids below `n`, in
      ascending order. */
  function Listing(rs: map<Id, Recipient>, cid: Id, n: nat): (ids: seq<Id>)
    ensures forall j :: 0 <= j < |ids| ==> ids[j] < n && ids[j] in rs && rs[ids[j]].campaign == cid
    ensures forall i, j :: 0 <= i < j < |ids| ==> ids[i] < ids[j]
    ensures forall id: Id :: id < n && id in rs && rs[id].campaign == cid ==> id in ids
  {
    if n == 0 then []
    else
      var prev := Listing(rs, cid, n - 1);
      if n - 1 in rs && rs[n - 1].campaign == cid then prev + [n - 1] else prev
  }

  /** The three conditions the statistics count. */
  datatype Query = IsSent | Opened | Clicked

  predicate Matches(rs: map<Id, Recipient>, es: map<Id, TrackingEvent>, id: Id, q: Query)
    requires id in rs
  {
    match q
    case IsSent => rs[id].status == Sent
    case Opened => HasEvent(es, id, Open)
    case Clicked => HasEvent(es, id, Click)
  }

  /** `sum(1 for r in ids if <q holds of r>)`. */
  function Tally(rs: map<Id, Recipient>, es: map<Id, TrackingEvent>, ids: seq<Id>, q: Query): (n: nat)
    requires InStore(rs, ids)
    ensures n <= |ids|
  {
    if ids == [] then 0
    else (if Matches(rs, es, ids[0], q) then 1 else 0) + Tally(rs, es, ids[1..], q)
  }

  /** The `stats` dictionary of `campaign_detail`, or `None` (404) for an
      unknown campaign. Each count is at most the total. */
  function DetailStats(cs: map<Id, Campaign>, rs: map<Id, Recipient>, es: map<Id, TrackingEvent>,
                       nr: Id, cid: Id): (s: Option<Counts>)
    ensures s.Some? <==> cid in cs
    ensures s.Some? ==> s.value.sent <= s.value.total && s.value.opens <= s.value.total
                        && s.value.clicks <= s.value.total
  {
    if cid !in cs then None
    else
      var ids := Listing(rs, cid, nr);
      Some(Counts(|ids|, Tally(rs, es, ids, IsSent), Tally(rs, es, ids, Opened), Tally(rs, es, ids, Clicked)))
  }

  /** The members of `ids` of which `q` holds. */
  function MatchingMembers(rs: map<Id, Recipient>, es: map<Id, TrackingEvent>, ids: seq<Id>, q: Query): (m: set<Id>)
    requires InStore(rs, ids)
    ensures forall id :: id in m <==> id in ids && Matches(rs, es, id, q)
  {
    if ids == [] then {}
    else
      assert forall id :: id in ids <==> id == ids[0] || id in ids[1..];
      (if Matches(rs, es, ids[0], q) then {ids[0]} else {}) + MatchingMembers(rs, es, ids[1..], q)
  }

  /** Counting the positions of a list without repeats at which `q` holds
      counts the set of its members of which `q` holds. */
  lemma {:induction false} TallyIsCardinality(rs: map<Id, Recipient>, es: map<Id, TrackingEvent>,
                                              ids: seq<Id>, q: Query)
    requires InStore(rs, ids) && Distinct(ids)
    ensures Tally(rs, es, ids, q) == |MatchingMembers(rs, es, ids, q)|
  {
    if ids != [] {
      DistinctTail(ids);
      TallyIsCardinality(rs, es, ids[1..], q);
    }
  }

  lemma ListingMembers(rs: map<Id, Recipient>, cid: Id, nr: Id)
    requires KeysBelow(rs, nr)
    ensures Elements(Listing(rs, cid, nr)) == RecipientsOf(rs, cid)
  {
  }

  /** The set of the campaign's recipients that `CampaignCounts` counts for `q`. */
  function Counted(rs: map<Id, Recipient>, es: map<Id, TrackingEvent>, cid: Id, q: Query): set<Id>
  {
    match q
    case IsSent => WithStatus(rs, cid, Sent)
    case Opened => WithEvent(rs, es, cid, Open)
    case Clicked => WithEvent(rs, es, cid, Click)
  }

  /** Each generator sum over `campaign.recipients` counts the recipients
      that `CampaignCounts` counts. */
  lemma TallyIsCounted(rs: map<Id, Recipient>, es: map<Id, TrackingEvent>, cid: Id, nr: Id, q: Query)
    requires KeysBelow(rs, nr)
    ensures Tally(rs, es, Listing(rs, cid, nr), q) == |Counted(rs, es, cid, q)|
  {
    var ids := Listing(rs, cid, nr);
    TallyIsCardinality(rs, es, ids, q);
    assert MatchingMembers(rs, es, ids, q) == Counted(rs, es, cid, q);
  }

  /** The listing has one entry per recipient of the campaign. */
  lemma ListingLength(rs: map<Id, Recipient>, cid: Id, nr: Id)
    requires KeysBelow(rs, nr)
    ensures |Listing(rs, cid, nr)| == |RecipientsOf(rs, cid)|
  {
    var ids := Listing(rs, cid, nr);
    assert Distinct(ids) by {
      forall i, j | 0 <= i < j < |ids| ensures ids[i] != ids[j] {
        assert ids[i] < ids[j];
      }
    }
    DistinctCardinality(ids);
    ListingMembers(rs, cid, nr);
  }

  /** On a consistent store the detail statistics are the four counts of
      `CampaignCounts`. */
  lemma TalliesAreCounts(rs: map<Id, Recipient>, es: map<Id, TrackingEvent>, cid: Id, nr: Id)
    requires KeysBelow(rs, nr)
    ensures var ids := Listing(rs, cid, nr);
      && |ids| == CampaignCounts(rs, es, cid).total
      && Tally(rs, es, ids, IsSent) == CampaignCounts(rs, es, cid).sent
      && Tally(rs, es, ids, Opened) == CampaignCounts(rs, es, cid).opens
      && Tally(rs, es, ids, Clicked) == CampaignCounts(rs, es, cid).clicks
  {
    ListingLength(rs, cid, nr);
    TallyIsCounted(rs, es, cid, nr, IsSent);
    TallyIsCounted(rs, es, cid, nr, Opened);
    TallyIsCounted(rs, es, cid, nr, Clicked);
  }

  /** The detail page and `to_dict` agree: on a consistent store the
      statistics of a known campaign are exactly its `CampaignCounts`. */
  lemma DetailAgreesWithToDict(cs: map<Id, Campaign>, rs: map<Id, Recipient>, es: map<Id, TrackingEvent>,
                               nc: Id, nr: Id, ne: Id, cid: Id)
    requires Consistent(cs, rs, es, nc, nr, ne) && cid in cs
    ensures DetailStats(cs, rs, es, nr, cid) == Some(CampaignCounts(rs, es, cid))
  {
    TalliesAreCounts(rs, es, cid, nr);
  }
}
