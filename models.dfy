/** The three persisted tables (campaigns, recipients, tracking events), the
    store that holds them, the invariants every route and the dispatch worker
    keep, the counts that `Campaign.to_dict` derives, and the cascade that
    deleting a campaign triggers. */
module Models {
  import opened Common

  /** Primary keys. */
  type Id = nat

  /** An opaque point in time (what `datetime.utcnow()` returns). */
  type Timestamp = int

  datatype CampaignStatus = Draft | Sending | Completed | Failed

  datatype RecipientStatus = Pending | Sent | Failed | Bounced

  datatype EventType = Open | Click

  datatype Campaign = Campaign(
    name: string,
    subject: string,
    body: string,
    createdAt: Timestamp,
    status: CampaignStatus)

  datatype Recipient = Recipient(
    campaign: Id,
    email: string,
    status: RecipientStatus,
    sentAt: Option<Timestamp>)

  datatype TrackingEvent = TrackingEvent(
    recipient: Id,
    kind: EventType,
    timestamp: Timestamp)

  /** A campaign row as the constructor builds it: `created_at` defaults to
      the current time and `status` to `Draft`. */
  function NewCampaign(name: string, subject: string, body: string, now: Timestamp): (c: Campaign)
    ensures c.status == Draft && c.createdAt == now
    ensures c.name == name && c.subject == subject && c.body == body
  {
    Campaign(name, subject, body, now, Draft)
  }

  /** A recipient row as the constructor builds it: `status` defaults to
      `Pending` and `sent_at` to null. */
  function NewRecipient(campaign: Id, email: string): (r: Recipient)
    ensures r.status == Pending && r.sentAt == None
    ensures r.campaign == campaign && r.email == email
  {
    Recipient(campaign, email, Pending, None)
  }

  // ---------------------------------------------------------------------
  // Store invariants
  // ---------------------------------------------------------------------

  /** Every key is below the next id the store hands out. */
  predicate KeysBelow<T>(m: map<Id, T>, next: Id)
  {
    forall k :: k in m ==> k < next
  }

  /** The `campaign_id` foreign key: every recipient belongs to a stored campaign. */
  predicate RecipientsOwned(cs: map<Id, Campaign>, rs: map<Id, Recipient>)
  {
    forall r :: r in rs ==> rs[r].campaign in cs
  }

  /** The `recipient_id` foreign key: every event belongs to a stored recipient. */
  predicate EventsOwned(rs: map<Id, Recipient>, es: map<Id, TrackingEvent>)
  {
    forall e :: e in es ==> es[e].recipient in rs
  }

  /** `sent_at` is set exactly on the recipients whose status is `Sent`. */
  predicate SentAtMatchesStatus(rs: map<Id, Recipient>)
  {
    forall r :: r in rs ==> (rs[r].sentAt.Some? <==> rs[r].status == Sent)
  }

  /** At most one event of each type per recipient. */
  predicate UniqueEvents(es: map<Id, TrackingEvent>)
  {
    forall e1, e2 :: e1 in es && e2 in es && e1 != e2 && es[e1].recipient == es[e2].recipient
      ==> es[e1].kind != es[e2].kind
  }

  predicate Consistent(cs: map<Id, Campaign>, rs: map<Id, Recipient>, es: map<Id, TrackingEvent>,
                       nextCampaign: Id, nextRecipient: Id, nextEvent: Id)
  {
    && KeysBelow(cs, nextCampaign) && KeysBelow(rs, nextRecipient) && KeysBelow(es, nextEvent)
    && RecipientsOwned(cs, rs) && EventsOwned(rs, es)
    && SentAtMatchesStatus(rs) && UniqueEvents(es)
  }

  /** The database: one map per table, keyed by primary key, and the next
      primary key of each table. */
  class Database {
    var campaigns: map<Id, Campaign>
    var recipients: map<Id, Recipient>
    var events: map<Id, TrackingEvent>
    var nextCampaignId: Id
    var nextRecipientId: Id
    var nextEventId: Id

    ghost predicate Valid()
      reads this
    {
      Consistent(campaigns, recipients, events, nextCampaignId, nextRecipientId, nextEventId)
    }

    constructor ()
      ensures Valid()
      ensures campaigns == map[] && recipients == map[] && events == map[]
    {
      campaigns, recipients, events := map[], map[], map[];
      nextCampaignId, nextRecipientId, nextEventId := 0, 0, 0;
    }
  }

  // ---------------------------------------------------------------------
  // Derived counts (Campaign.to_dict and the campaign detail page)
  // ---------------------------------------------------------------------

  /** `campaign.recipients`. */
  function RecipientsOf(rs: map<Id, Recipient>, cid: Id): set<Id>
  {
    set r | r in rs && rs[r].campaign == cid
  }

  function WithStatus(rs: map<Id, Recipient>, cid: Id, st: RecipientStatus): set<Id>
  {
    set r | r in rs && rs[r].campaign == cid && rs[r].status == st
  }

  /** `any(e.type == kind for e in r.events)`. */
  predicate HasEvent(es: map<Id, TrackingEvent>, rid: Id, kind: EventType)
  {
    exists e :: e in es && es[e].recipient == rid && es[e].kind == kind
  }

  function WithEvent(rs: map<Id, Recipient>, es: map<Id, TrackingEvent>, cid: Id, kind: EventType): set<Id>
  {
    set r | r in rs && rs[r].campaign == cid && HasEvent(es, r, kind)
  }

  lemma {:induction false} SubsetCardinality<T>(a: set<T>, b: set<T>)
    requires a <= b
    ensures |a| <= |b|
    decreases |b|
  {
    if a != {} {
      var x :| x in a;
      SubsetCardinality(a - {x}, b - {x});
    }
  }

  datatype Counts = Counts(total: nat, sent: nat, opens: nat, clicks: nat)

  /** The four per-campaign counts: recipients, recipients with status
      `Sent`, and recipients with at least one open (click) event. Each is at
      most the number of recipients. */
  function CampaignCounts(rs: map<Id, Recipient>, es: map<Id, TrackingEvent>, cid: Id): (c: Counts)
    ensures c.total == |RecipientsOf(rs, cid)|
    ensures c.sent <= c.total && c.opens <= c.total && c.clicks <= c.total
  {
    SubsetCardinality(WithStatus(rs, cid, Sent), RecipientsOf(rs, cid));
    SubsetCardinality(WithEvent(rs, es, cid, Open), RecipientsOf(rs, cid));
    SubsetCardinality(WithEvent(rs, es, cid, Click), RecipientsOf(rs, cid));
    Counts(|RecipientsOf(rs, cid)|, |WithStatus(rs, cid, Sent)|,
           |WithEvent(rs, es, cid, Open)|, |WithEvent(rs, es, cid, Click)|)
  }

  /** The dictionary `to_dict` returns, except the formatted `created_at`. */
  datatype CampaignView = CampaignView(
    id: Id, name: string, subject: string, status: CampaignStatus,
    totalRecipients: nat, sentCount: nat, openCount: nat, clickCount: nat)

  function ToDict(cid: Id, c: Campaign, rs: map<Id, Recipient>, es: map<Id, TrackingEvent>): (v: CampaignView)
    ensures v.id == cid && v.name == c.name && v.subject == c.subject && v.status == c.status
    ensures v.totalRecipients == |RecipientsOf(rs, cid)|
    ensures v.sentCount <= v.totalRecipients && v.openCount <= v.totalRecipients
            && v.clickCount <= v.totalRecipients
  {
    var n := CampaignCounts(rs, es, cid);
    CampaignView(cid, c.name, c.subject, c.status, n.total, n.sent, n.opens, n.clicks)
  }

  /** A second event of a type a recipient already has does not change any
      count: opens and clicks count recipients, not events. */
  lemma RepeatEventNotCounted(rs: map<Id, Recipient>, es: map<Id, TrackingEvent>, cid: Id,
                              newId: Id, ev: TrackingEvent)
    requires newId !in es
    requires HasEvent(es, ev.recipient, ev.kind)
    ensures CampaignCounts(rs, es[newId := ev], cid) == CampaignCounts(rs, es, cid)
  {
    var es' := es[newId := ev];
    forall r, k ensures HasEvent(es', r, k) == HasEvent(es, r, k) {
      if HasEvent(es', r, k) {
        var e :| e in es' && es'[e].recipient == r && es'[e].kind == k;
        if e == newId {
          var e0 :| e0 in es && es[e0].recipient == ev.recipient && es[e0].kind == ev.kind;
          assert es'[e0] == es[e0];
        } else {
          assert es[e] == es'[e];
        }
      }
      if HasEvent(es, r, k) {
        var e :| e in es && es[e].recipient == r && es[e].kind == k;
        assert es'[e] == es[e];
      }
    }
    assert WithEvent(rs, es', cid, Open) == WithEvent(rs, es, cid, Open);
    assert WithEvent(rs, es', cid, Click) == WithEvent(rs, es, cid, Click);
  }

  // ---------------------------------------------------------------------
  // Cascade delete
  // ---------------------------------------------------------------------

  /** The recipients left after deleting campaign `cid` (`delete-orphan` on
      `Campaign.recipients`). */
  function RecipientsAfterDelete(rs: map<Id, Recipient>, cid: Id): map<Id, Recipient>
  {
    map r | r in rs && rs[r].campaign != cid :: rs[r]
  }

  /** The events left after deleting campaign `cid`: those of its recipients
      go with them (`delete-orphan` on `Recipient.events`). */
  function EventsAfterDelete(rs: map<Id, Recipient>, es: map<Id, TrackingEvent>, cid: Id): map<Id, TrackingEvent>
  {
    map e | e in es && !(es[e].recipient in rs && rs[es[e].recipient].campaign == cid) :: es[e]
  }

  /** Deleting a campaign keeps the store consistent, leaves no recipient of
      it and no event of those recipients, and keeps every other campaign's
      recipients, events and counts as they were. */
  lemma CascadeDelete(cs: map<Id, Campaign>, rs: map<Id, Recipient>, es: map<Id, TrackingEvent>,
                      nc: Id, nr: Id, ne: Id, cid: Id)
    requires Consistent(cs, rs, es, nc, nr, ne)
    ensures var rs', es' := RecipientsAfterDelete(rs, cid), EventsAfterDelete(rs, es, cid);
      && Consistent(cs - {cid}, rs', es', nc, nr, ne)
      && RecipientsOf(rs', cid) == {}
      && (forall e :: e in es' ==> es'[e].recipient !in RecipientsOf(rs, cid))
      && (forall other :: other != cid ==>
            CampaignCounts(rs', es', other) == CampaignCounts(rs, es, other))
  {
    var rs', es' := RecipientsAfterDelete(rs, cid), EventsAfterDelete(rs, es, cid);
    forall other | other != cid
      ensures CampaignCounts(rs', es', other) == CampaignCounts(rs, es, other)
    {
      assert RecipientsOf(rs', other) == RecipientsOf(rs, other);
      assert WithStatus(rs', other, Sent) == WithStatus(rs, other, Sent);
      forall r, k | r in rs && rs[r].campaign == other
        ensures HasEvent(es', r, k) == HasEvent(es, r, k)
      {
        if HasEvent(es, r, k) {
          var e :| e in es && es[e].recipient == r && es[e].kind == k;
          assert e in es';
        }
        if HasEvent(es', r, k) {
          var e :| e in es' && es'[e].recipient == r && es'[e].kind == k;
          assert e in es;
        }
      }
      assert WithEvent(rs', es', other, Open) == WithEvent(rs, es, other, Open);
      assert WithEvent(rs', es', other, Click) == WithEvent(rs, es, other, Click);
    }
  }
}
