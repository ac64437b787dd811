/** The dispatch worker `send_async`: it looks the campaign up, snapshots
    its pending recipients, opens one SMTP session, composes and sends one
    personalised message per snapshotted recipient, records each outcome,
    and finally sets the campaign's status.

    SMTP is an oracle (`Smtp`): whether connecting, `starttls()` and
    `login()` succeed, whether the i-th `sendmail` call of the run is
    accepted or raises, and whether `quit()` succeeds. The clock is a
    parameter too: `clock(i)` is the `datetime.utcnow()` reading taken when
    the send to the i-th snapshotted recipient is accepted; it is read only
    for accepted sends. */
module Sender {
  import opened Common
  import opened Text
  import opened Models

  // ---------------------------------------------------------------------
  // Message composition
  // ---------------------------------------------------------------------

  /** The base URL the tracking links point at. */
  const BaseUrl: string := "http://127.0.0.1:5000"

  const VerifyToken: string := "[VERIFY_BUTTON]"
  const LinkToken: string := "{{ tracking_link }}"

  function ClickLink(base: string, id: Id): string
  {
    base + "/track/click/" + NatToString(id)
  }

  function OpenLink(base: string, id: Id): string
  {
    base + "/track/open/" + NatToString(id)
  }

  /** The invisible 1x1 image whose load records an open. */
  function PixelTag(base: string, id: Id): string
  {
    "<img src=\"" + OpenLink(base, id) + "\" width=\"1\" height=\"1\" style=\"display:none;\" />"
  }

  const Indent20: string := "                    "
  const Indent24: string := Indent20 + "    "

  /** The anchor up to its link: a line break, the indentation and `<a href="`. */
  const ButtonHead: string := "\n" + Indent20 + "<a href=\""

  /** The anchor's inline style, closing its opening tag and line, in three
      parts: layout, colours, shape and font. */
  const StyleLayout: string := "\" style=\"display: " + "inline-block; " + "padding: 12px 24px; "
  const StyleColours: string := "background-color: " + "#6366f1; color: " + "white; text-" + "decoration: none; "
  const StyleShape: string := "border-radius: 6px; " + "font-weight: bold; " + "font-family: " + "sans-serif;\">\n"
  const ButtonStyle: string := StyleLayout + StyleColours + StyleShape

  /** The rest of the anchor after its link: the style, the label and the
      closing tag, each on its own indented line. */
  const ButtonTail: string := ButtonStyle + Indent24 + "Verify Email\n" + Indent20 + "</a>\n" + Indent20

  /** The styled "Verify Email" anchor, with the indentation and line
      breaks of the triple-quoted literal it comes from. */
  function ButtonHtml(link: string): string
  {
    ButtonHead + link + ButtonTail
  }

  /** Token substitution: every `[VERIFY_BUTTON]` becomes the anchor (only
      attempted when the token occurs), then every `{{ tracking_link }}`
      becomes the bare click link. */
  function Substitute(template: string, link: string): string
  {
    var withButton :=
      if Contains(template, VerifyToken) then ReplaceAll(template, VerifyToken, ButtonHtml(link))
      else template;
    ReplaceAll(withButton, LinkToken, link)
  }

  /** The final HTML body sent to recipient `id`. */
  function Compose(template: string, id: Id, base: string): string
  {
    "<html><body>" + Substitute(template, ClickLink(base, id)) + "<br>" + PixelTag(base, id) + "</body></html>"
  }

  /** The guard before the first replacement changes nothing: replacing an
      absent token is already a no-op. */
  lemma ButtonGuardRedundant(template: string, link: string)
    ensures Substitute(template, link)
         == ReplaceAll(ReplaceAll(template, VerifyToken, ButtonHtml(link)), LinkToken, link)
  {
    if !Contains(template, VerifyToken) {
      ReplaceAbsent(template, VerifyToken, ButtonHtml(link));
    }
  }

  /** A template with neither token is only wrapped: the body is the
      template, a line break and the pixel, inside the HTML envelope. */
  lemma ComposeWithoutTokens(template: string, id: Id, base: string)
    requires !Contains(template, VerifyToken) && !Contains(template, LinkToken)
    ensures Compose(template, id, base)
         == "<html><body>" + template + "<br>" + PixelTag(base, id) + "</body></html>"
  {
    ReplaceAbsent(template, LinkToken, ClickLink(base, id));
  }

  /** Every composed body opens the envelope and ends with the recipient's
      open pixel and the closing tags, and the id in the pixel's source reads
      back as the recipient's id. */
  lemma ComposeEndsWithPixel(template: string, id: Id, base: string)
    ensures var body := Compose(template, id, base);
      var tail := PixelTag(base, id) + "</body></html>";
      && |body| >= 12 + |tail|
      && body[..12] == "<html><body>"
      && body[|body| - |tail|..] == tail
    ensures exists digits :: OpenLink(base, id) == base + "/track/open/" + digits
              && (forall k :: 0 <= k < |digits| ==> IsDigit(digits[k]))
              && ParseNat(digits) == id
  {
    var body := Compose(template, id, base);
    var tail := PixelTag(base, id) + "</body></html>";
    var mid := Substitute(template, ClickLink(base, id));
    assert body == "<html><body>" + (mid + "<br>") + tail;
    ParseNatToString(id);
    assert OpenLink(base, id) == base + "/track/open/" + NatToString(id);
  }

  /** Every `{{ tracking_link }}` of a template without the button token
      becomes the click link: the substituted body is the template's pieces
      around the token joined with the link. */
  lemma LinkTokenBecomesClickLink(template: string, id: Id, base: string)
    requires !Contains(template, VerifyToken)
    ensures Substitute(template, ClickLink(base, id)) == Join(Split(template, LinkToken), ClickLink(base, id))
  {
    ReplaceIsJoinOfSplit(template, LinkToken, ClickLink(base, id));
  }

  lemma ExampleLinks()
    ensures ClickLink(BaseUrl, 42) == "http://127.0.0.1:5000/track/click/42"
    ensures OpenLink(BaseUrl, 42) == "http://127.0.0.1:5000/track/open/42"
  {
    assert NatToString(42) == "42" by {
      assert NatToString(4) == "4";
    }
  }

  /** A lone button token is replaced where it stands, with the text around
      it kept, when neither side holds a `[`. */
  lemma VerifyTokenReplacedInPlace(before: string, after: string, button: string)
    requires '[' !in before && '[' !in after
    ensures ReplaceAll(before + VerifyToken + after, VerifyToken, button) == before + button + after
  {
    AbsentWithoutFirst(after, VerifyToken);
    ReplaceAbsent(after, VerifyToken, button);
    ReplaceAtFront(after, VerifyToken, button);
    ReplaceSkipPrefix(before, VerifyToken + after, VerifyToken, button);
    assert before + VerifyToken + after == before + (VerifyToken + after);
  }

  /** A template with one link token and no `[` or `{` elsewhere gets the
      bare click link in the token's place. */
  lemma LinkTokenReplacedInPlace(before: string, after: string, link: string)
    requires '[' !in before && '[' !in after && '{' !in before && '{' !in after
    ensures Substitute(before + LinkToken + after, link) == before + link + after
  {
    var t := before + LinkToken + after;
    assert '[' !in LinkToken;
    assert '[' !in t;
    AbsentWithoutFirst(t, VerifyToken);
    AbsentWithoutFirst(after, LinkToken);
    ReplaceAbsent(after, LinkToken, link);
    ReplaceAtFront(after, LinkToken, link);
    ReplaceSkipPrefix(before, LinkToken + after, LinkToken, link);
    assert t == before + (LinkToken + after);
  }

  /** The body sent to recipient `id` for such a template: the envelope, the
      template with `/track/click/<id>` in place of the token, a line break
      and the pixel loading `/track/open/<id>`. */
  lemma ComposeWithLinkToken(before: string, after: string, id: Id)
    requires '[' !in before && '[' !in after && '{' !in before && '{' !in after
    ensures Compose(before + LinkToken + after, id, BaseUrl)
         == "<html><body>" + before + ClickLink(BaseUrl, id) + after + "<br>"
            + PixelTag(BaseUrl, id) + "</body></html>"
  {
    LinkTokenReplacedInPlace(before, after, ClickLink(BaseUrl, id));
  }

  lemma StyleLayoutFree()
    ensures '[' !in StyleLayout && '{' !in StyleLayout
  {
    assert '[' !in "\" style=\"display: " && '{' !in "\" style=\"display: ";
    assert '[' !in "inline-block; " && '{' !in "inline-block; ";
    assert '[' !in "padding: 12px 24px; " && '{' !in "padding: 12px 24px; ";
  }

  lemma StyleColoursFree()
    ensures '[' !in StyleColours && '{' !in StyleColours
  {
    assert '[' !in "background-color: " && '{' !in "background-color: ";
    assert '[' !in "#6366f1; color: " && '{' !in "#6366f1; color: ";
    assert '[' !in "white; text-" && '{' !in "white; text-";
    assert '[' !in "decoration: none; " && '{' !in "decoration: none; ";
  }

  lemma StyleShapeFree()
    ensures '[' !in StyleShape && '{' !in StyleShape
  {
    assert '[' !in "border-radius: 6px; " && '{' !in "border-radius: 6px; ";
    assert '[' !in "font-weight: bold; " && '{' !in "font-weight: bold; ";
    assert '[' !in "font-family: " && '{' !in "font-family: ";
    assert '[' !in "sans-serif;\">\n" && '{' !in "sans-serif;\">\n";
  }

  lemma IndentsFree()
    ensures '[' !in Indent20 && '{' !in Indent20
    ensures '[' !in Indent24 && '{' !in Indent24
  {
    assert Indent24 == Indent20 + "    ";
  }

  /** The fixed text of the anchor holds neither token's first character. */
  lemma ButtonTextFree()
    ensures '[' !in ButtonHead && '{' !in ButtonHead
    ensures '[' !in ButtonTail && '{' !in ButtonTail
  {
    IndentsFree();
    StyleLayoutFree();
    StyleColoursFree();
    StyleShapeFree();
    assert '[' !in "Verify Email\n" && '{' !in "Verify Email\n";
    assert '[' !in "</a>\n" && '{' !in "</a>\n";
    assert '[' !in "<a href=\"" && '{' !in "<a href=\"";
  }

  /** The click link of the deployed base URL holds neither character. */
  lemma ClickLinkFree(id: Id)
    ensures '[' !in ClickLink(BaseUrl, id) && '{' !in ClickLink(BaseUrl, id)
  {
    var digits := NatToString(id);
    assert '[' !in BaseUrl && '{' !in BaseUrl;
    assert '[' !in "/track/click/" && '{' !in "/track/click/";
    assert '[' !in digits && '{' !in digits by {
      forall k | 0 <= k < |digits| ensures digits[k] != '[' && digits[k] != '{' {
        assert IsDigit(digits[k]);
      }
    }
  }

  /** The anchor holds a `[` or `{` only where its link does. */
  lemma ButtonHtmlFree(link: string)
    requires '[' !in link && '{' !in link
    ensures '[' !in ButtonHtml(link) && '{' !in ButtonHtml(link)
  {
    ButtonTextFree();
  }

  /** A lone button token, in a template with no `[` or `{` elsewhere and
      a link with neither, becomes the anchor where it stands. */
  lemma VerifyButtonReplacedInPlace(before: string, after: string, link: string)
    requires '[' !in before && '[' !in after && '{' !in before && '{' !in after
    requires '[' !in link && '{' !in link
    ensures Substitute(before + VerifyToken + after, link) == before + ButtonHtml(link) + after
  {
    var button := ButtonHtml(link);
    var withButton := before + button + after;
    ButtonGuardRedundant(before + VerifyToken + after, link);
    VerifyTokenReplacedInPlace(before, after, button);
    ButtonHtmlFree(link);
    assert '{' !in withButton;
    AbsentWithoutFirst(withButton, LinkToken);
    ReplaceAbsent(withButton, LinkToken, link);
  }

  /** The body sent to recipient `id` for a template with one button token
      and no `[` or `{` elsewhere: the envelope, the template with the
      button linking to `/track/click/<id>` in place of the token, a line
      break and the pixel loading `/track/open/<id>`. */
  lemma ComposeWithVerifyButton(before: string, after: string, id: Id)
    requires '[' !in before && '[' !in after && '{' !in before && '{' !in after
    ensures Compose(before + VerifyToken + after, id, BaseUrl)
         == "<html><body>" + before + ButtonHtml(ClickLink(BaseUrl, id)) + after + "<br>"
            + PixelTag(BaseUrl, id) + "</body></html>"
  {
    ClickLinkFree(id);
    VerifyButtonReplacedInPlace(before, after, ClickLink(BaseUrl, id));
  }

  // ---------------------------------------------------------------------
  // The recipient loop
  // ---------------------------------------------------------------------

  /** The SMTP oracle for one run. */
  datatype Smtp = Smtp(
    opens: bool,              // SMTP(...), starttls() and login() all succeed
    accepts: nat -> bool,     // the i-th sendmail of the run returns
    quits: bool)              // quit() returns

  /** One `sendmail` call: envelope sender, recipient, subject and body. */
  datatype Mail = Mail(from: string, to: string, subject: string, html: string)

  predicate IsPendingOf(rs: map<Id, Recipient>, cid: Id, id: Id)
  {
    id in rs && rs[id].campaign == cid && rs[id].status == Pending
  }

  /** `Recipient.query.filter_by(campaign_id=cid, status='Pending').all()`
      over the ids below `n`: the matching ids in ascending order. */
  function PendingSnapshot(rs: map<Id, Recipient>, cid: Id, n: nat): (snap: seq<Id>)
    ensures forall j :: 0 <= j < |snap| ==> snap[j] < n && IsPendingOf(rs, cid, snap[j])
    ensures forall i, j :: 0 <= i < j < |snap| ==> snap[i] < snap[j]
    ensures forall id: Id :: id < n && IsPendingOf(rs, cid, id) ==> id in snap
  {
    if n == 0 then []
    else
      var prev := PendingSnapshot(rs, cid, n - 1);
      if IsPendingOf(rs, cid, n - 1) then prev + [n - 1] else prev
  }

  predicate InStore(rs: map<Id, Recipient>, snap: seq<Id>)
  {
    forall j :: 0 <= j < |snap| ==> snap[j] in rs
  }

  /** What one attempt records: `Sent` and the send time when `sendmail`
      returned, `Failed` (and `sent_at` untouched) when it raised. */
  function Attempt(r: Recipient, accepted: bool, at: Timestamp): (r': Recipient)
    ensures r'.campaign == r.campaign && r'.email == r.email
    ensures r'.status == (if accepted then Sent else RecipientStatus.Failed)
    ensures r'.sentAt == (if accepted then Some(at) else r.sentAt)
  {
    if accepted then r.(status := Sent, sentAt := Some(at))
    else r.(status := RecipientStatus.Failed)
  }

  /** The recipients table after the first `k` attempts of the loop. */
  function RunPrefix(rs: map<Id, Recipient>, snap: seq<Id>, k: nat, smtp: Smtp,
                     clock: nat -> Timestamp): (out: map<Id, Recipient>)
    requires k <= |snap| && InStore(rs, snap)
    ensures forall id :: id in out <==> id in rs
  {
    if k == 0 then rs
    else
      var prev := RunPrefix(rs, snap, k - 1, smtp, clock);
      prev[snap[k - 1] := Attempt(prev[snap[k - 1]], smtp.accepts(k - 1), clock(k - 1))]
  }

  /** The loop never moves a recipient to another campaign or changes its
      address. */
  lemma {:induction false} RunPrefixKeepsIdentity(rs: map<Id, Recipient>, snap: seq<Id>, k: nat,
                                                  smtp: Smtp, clock: nat -> Timestamp, id: Id)
    requires k <= |snap| && InStore(rs, snap) && id in rs
    ensures var out := RunPrefix(rs, snap, k, smtp, clock);
      out[id].campaign == rs[id].campaign && out[id].email == rs[id].email
  {
    if k > 0 {
      RunPrefixKeepsIdentity(rs, snap, k - 1, smtp, clock, id);
    }
  }

  lemma RunPrefixStep(rs: map<Id, Recipient>, snap: seq<Id>, k: nat, smtp: Smtp, clock: nat -> Timestamp)
    requires k < |snap| && InStore(rs, snap)
    ensures var prev := RunPrefix(rs, snap, k, smtp, clock);
      snap[k] in prev
      && RunPrefix(rs, snap, k + 1, smtp, clock) == prev[snap[k] := Attempt(prev[snap[k]], smtp.accepts(k), clock(k))]
  {
  }

  /** The `sendmail` calls of the loop, one per snapshotted recipient, in
      snapshot order, each from the sender to that recipient's address. */
  function Outbox(rs: map<Id, Recipient>, snap: seq<Id>, sender: string, c: Campaign): (mails: seq<Mail>)
    requires InStore(rs, snap)
    ensures |mails| == |snap|
    ensures forall j :: 0 <= j < |snap| ==>
      mails[j].from == sender && mails[j].to == rs[snap[j]].email && mails[j].subject == c.subject
  {
    seq(|snap|, j requires 0 <= j < |snap| => Mail(sender, rs[snap[j]].email, c.subject, Compose(c.body, snap[j], BaseUrl)))
  }

  lemma OutboxStep(rs: map<Id, Recipient>, snap: seq<Id>, sender: string, c: Campaign, i: nat)
    requires InStore(rs, snap) && i < |snap|
    ensures var out := Outbox(rs, snap, sender, c);
      out[..i + 1] == out[..i] + [Mail(sender, rs[snap[i]].email, c.subject, Compose(c.body, snap[i], BaseUrl))]
  {
    var out := Outbox(rs, snap, sender, c);
    assert out[..i + 1] == out[..i] + [out[i]];
  }

  /** A recipient the loop has not reached is as it was. */
  lemma {:induction false} RunPrefixUntouched(rs: map<Id, Recipient>, snap: seq<Id>, k: nat,
                                              smtp: Smtp, clock: nat -> Timestamp, id: Id)
    requires k <= |snap| && InStore(rs, snap) && id in rs && id !in snap[..k]
    ensures RunPrefix(rs, snap, k, smtp, clock)[id] == rs[id]
  {
    if k > 0 {
      assert snap[..k - 1] <= snap[..k];
      assert snap[k - 1] in snap[..k];
      RunPrefixUntouched(rs, snap, k - 1, smtp, clock, id);
    }
  }

  /** A recipient the loop has reached holds the outcome of its own attempt. */
  lemma {:induction false} RunPrefixAttempted(rs: map<Id, Recipient>, snap: seq<Id>, k: nat,
                                              smtp: Smtp, clock: nat -> Timestamp, j: nat)
    requires k <= |snap| && InStore(rs, snap) && Distinct(snap) && j < k
    ensures RunPrefix(rs, snap, k, smtp, clock)[snap[j]]
         == Attempt(rs[snap[j]], smtp.accepts(j), clock(j))
  {
    if j == k - 1 {
      assert snap[j] !in snap[..j];
      RunPrefixUntouched(rs, snap, j, smtp, clock, snap[j]);
    } else {
      RunPrefixAttempted(rs, snap, k - 1, smtp, clock, j);
    }
  }

  /** The loop keeps `sent_at` set exactly on `Sent` recipients, as long as
      each snapshotted recipient is attempted once and starts `Pending`. */
  lemma RunPrefixKeepsSentAt(rs: map<Id, Recipient>, snap: seq<Id>, k: nat, smtp: Smtp,
                             clock: nat -> Timestamp)
    requires k <= |snap| && InStore(rs, snap) && Distinct(snap)
    requires forall j :: 0 <= j < |snap| ==> rs[snap[j]].status == Pending
    requires SentAtMatchesStatus(rs)
    ensures SentAtMatchesStatus(RunPrefix(rs, snap, k, smtp, clock))
  {
    var out := RunPrefix(rs, snap, k, smtp, clock);
    forall id | id in out ensures out[id].sentAt.Some? <==> out[id].status == Sent {
      if id in snap[..k] {
        var j :| 0 <= j < k && snap[j] == id;
        RunPrefixAttempted(rs, snap, k, smtp, clock, j);
      } else {
        RunPrefixUntouched(rs, snap, k, smtp, clock, id);
      }
    }
  }

  // ---------------------------------------------------------------------
  // The whole run
  // ---------------------------------------------------------------------

  /** What a run leaves behind: both tables and the `sendmail` calls made. */
  datatype RunResult = RunResult(campaigns: map<Id, Campaign>, recipients: map<Id, Recipient>, mails: seq<Mail>)

  /** The campaign status a run that found its campaign ends with: `Failed`
      when the session does not open, else `Completed`, overwritten by
      `Failed` when `quit()` raises. */
  function FinalStatus(smtp: Smtp): (st: CampaignStatus)
    ensures st == Completed <==> smtp.opens && smtp.quits
    ensures st != Completed ==> st == CampaignStatus.Failed
  {
    if !smtp.opens then CampaignStatus.Failed
    else if smtp.quits then Completed
    else CampaignStatus.Failed
  }

  /** `send_async(app, cid, sender, password)` on the store. */
  function Dispatch(cs: map<Id, Campaign>, rs: map<Id, Recipient>, next: Id, cid: Id,
                    sender: string, smtp: Smtp, clock: nat -> Timestamp): (r: RunResult)
    ensures r.recipients.Keys == rs.Keys && r.campaigns.Keys == cs.Keys
    ensures cid !in cs ==> r == RunResult(cs, rs, [])
    ensures cid in cs ==> r.campaigns == cs[cid := cs[cid].(status := FinalStatus(smtp))]
    ensures cid in cs && !smtp.opens ==> r.recipients == rs && r.mails == []
  {
    if cid !in cs then RunResult(cs, rs, [])
    else
      var snap := PendingSnapshot(rs, cid, next);
      var c := cs[cid];
      if !smtp.opens then RunResult(cs[cid := c.(status := CampaignStatus.Failed)], rs, [])
      else
        RunResult(cs[cid := c.(status := FinalStatus(smtp))],
                  RunPrefix(rs, snap, |snap|, smtp, clock),
                  Outbox(rs, snap, sender, c))
  }

  /** A run changes only recipients of its own campaign that were `Pending`:
      every other recipient is left exactly as it was. */
  lemma DispatchTouchesOnlyPending(cs: map<Id, Campaign>, rs: map<Id, Recipient>, next: Id, cid: Id,
                                   sender: string, smtp: Smtp, clock: nat -> Timestamp, id: Id)
    requires id in rs && !IsPendingOf(rs, cid, id)
    ensures Dispatch(cs, rs, next, cid, sender, smtp, clock).recipients[id] == rs[id]
  {
    if cid in cs && smtp.opens {
      var snap := PendingSnapshot(rs, cid, next);
      RunPrefixUntouched(rs, snap, |snap|, smtp, clock, id);
    }
  }

  /** Once the session is open, each recipient that was `Pending` for the
      campaign when the run began ends `Sent` with the time of its send when
      its `sendmail` returned, and `Failed` with `sent_at` untouched when it
      raised, and got exactly one message: from the sender, to its address,
      with the campaign's subject and its own composed body. */
  lemma DispatchOutcome(cs: map<Id, Campaign>, rs: map<Id, Recipient>, next: Id, cid: Id,
                        sender: string, smtp: Smtp, clock: nat -> Timestamp, j: nat)
    requires cid in cs && smtp.opens
    requires j < |PendingSnapshot(rs, cid, next)|
    ensures var snap := PendingSnapshot(rs, cid, next);
      var r := Dispatch(cs, rs, next, cid, sender, smtp, clock);
      var id := snap[j];
      && r.recipients[id].status == (if smtp.accepts(j) then Sent else RecipientStatus.Failed)
      && r.recipients[id].sentAt == (if smtp.accepts(j) then Some(clock(j)) else rs[id].sentAt)
      && r.mails[j] == Mail(sender, rs[id].email, cs[cid].subject, Compose(cs[cid].body, id, BaseUrl))
  {
    var snap := PendingSnapshot(rs, cid, next);
    RunPrefixAttempted(rs, snap, |snap|, smtp, clock, j);
  }

  /** After a run whose session opened, no recipient of the campaign is
      `Pending`, so a second run would attempt nobody. */
  lemma DispatchLeavesNoPending(cs: map<Id, Campaign>, rs: map<Id, Recipient>, next: Id, cid: Id,
                                sender: string, smtp: Smtp, clock: nat -> Timestamp)
    requires KeysBelow(rs, next) && cid in cs && smtp.opens
    ensures var r := Dispatch(cs, rs, next, cid, sender, smtp, clock);
      WithStatus(r.recipients, cid, Pending) == {}
      && PendingSnapshot(r.recipients, cid, next) == []
  {
    var snap := PendingSnapshot(rs, cid, next);
    var out := Dispatch(cs, rs, next, cid, sender, smtp, clock).recipients;
    forall id | id in rs ensures out[id].campaign == cid ==> out[id].status != Pending {
      RunPrefixKeepsIdentity(rs, snap, |snap|, smtp, clock, id);
      if rs[id].campaign == cid {
        NoneLeftPending(rs, snap, smtp, clock, cid, next, id);
      }
    }
    SnapshotOfNone(out, cid, next);
  }

  lemma NoneLeftPending(rs: map<Id, Recipient>, snap: seq<Id>, smtp: Smtp, clock: nat -> Timestamp,
                        cid: Id, next: Id, id: Id)
    requires KeysBelow(rs, next) && snap == PendingSnapshot(rs, cid, next)
    requires id in rs && rs[id].campaign == cid
    ensures RunPrefix(rs, snap, |snap|, smtp, clock)[id].status != Pending
  {
    if id in snap {
      var j :| 0 <= j < |snap| && snap[j] == id;
      RunPrefixAttempted(rs, snap, |snap|, smtp, clock, j);
    } else {
      RunPrefixUntouched(rs, snap, |snap|, smtp, clock, id);
    }
  }

  /** With no pending recipient the snapshot is empty. */
  lemma SnapshotOfNone(rs: map<Id, Recipient>, cid: Id, n: nat)
    requires forall id :: id in rs && rs[id].campaign == cid ==> rs[id].status != Pending
    ensures PendingSnapshot(rs, cid, n) == []
  {
    var snap := PendingSnapshot(rs, cid, n);
    assert forall j :: 0 <= j < |snap| ==> IsPendingOf(rs, cid, snap[j]);
  }

  /** A transport that dies mid-run: when every `sendmail` from the k-th on
      raises, every recipient from the k-th on is marked `Failed` (none is
      left `Pending`), because each failure is caught per recipient. */
  lemma DispatchAfterCollapse(cs: map<Id, Campaign>, rs: map<Id, Recipient>, next: Id, cid: Id,
                              sender: string, smtp: Smtp, clock: nat -> Timestamp, k: nat)
    requires cid in cs && smtp.opens
    requires forall i :: k <= i ==> !smtp.accepts(i)
    ensures var snap := PendingSnapshot(rs, cid, next);
      var r := Dispatch(cs, rs, next, cid, sender, smtp, clock);
      forall j :: k <= j < |snap| ==> r.recipients[snap[j]].status == RecipientStatus.Failed
  {
    var snap := PendingSnapshot(rs, cid, next);
    forall j | k <= j < |snap| ensures RunPrefix(rs, snap, |snap|, smtp, clock)[snap[j]].status == RecipientStatus.Failed {
      RunPrefixAttempted(rs, snap, |snap|, smtp, clock, j);
    }
  }

  /** A run keeps the store consistent. */
  lemma DispatchConsistent(cs: map<Id, Campaign>, rs: map<Id, Recipient>, es: map<Id, TrackingEvent>,
                           nc: Id, nr: Id, ne: Id, cid: Id,
                           sender: string, smtp: Smtp, clock: nat -> Timestamp)
    requires Consistent(cs, rs, es, nc, nr, ne)
    ensures var r := Dispatch(cs, rs, nr, cid, sender, smtp, clock);
      Consistent(r.campaigns, r.recipients, es, nc, nr, ne)
  {
    if cid in cs && smtp.opens {
      var snap := PendingSnapshot(rs, cid, nr);
      RunPrefixKeepsSentAt(rs, snap, |snap|, smtp, clock);
      forall id | id in rs
        ensures RunPrefix(rs, snap, |snap|, smtp, clock)[id].campaign == rs[id].campaign
      {
        RunPrefixKeepsIdentity(rs, snap, |snap|, smtp, clock, id);
      }
    }
  }

  /** Three pending recipients; the transport accepts the first and third
      and rejects the second: they end `Sent`, `Failed`, `Sent`, and the
      campaign ends `Completed`. */
  lemma SnapshotOfThree(rs: map<Id, Recipient>)
    requires forall id :: id in rs <==> 1 <= id <= 3
    requires forall id :: id in rs ==> rs[id].campaign == 7 && rs[id].status == Pending
    ensures PendingSnapshot(rs, 7, 4) == [1, 2, 3]
  {
    assert PendingSnapshot(rs, 7, 0) == [];
    assert !IsPendingOf(rs, 7, 0);
    assert PendingSnapshot(rs, 7, 1) == [];
    assert IsPendingOf(rs, 7, 1) && IsPendingOf(rs, 7, 2) && IsPendingOf(rs, 7, 3);
    SnapshotGrows(rs, 7, 1);
    SnapshotGrows(rs, 7, 2);
    SnapshotGrows(rs, 7, 3);
  }

  lemma SnapshotGrows(rs: map<Id, Recipient>, cid: Id, n: nat)
    requires IsPendingOf(rs, cid, n)
    ensures PendingSnapshot(rs, cid, n + 1) == PendingSnapshot(rs, cid, n) + [n]
  {
  }

  lemma DispatchThreeRecipientsExample(c: Campaign, a: string, b: string, d: string, sender: string,
                                       sentAt: nat -> Timestamp)
    ensures var rs := map[1 := NewRecipient(7, a), 2 := NewRecipient(7, b), 3 := NewRecipient(7, d)];
      var smtp := Smtp(true, i => i != 1, true);
      var r := Dispatch(map[7 := c], rs, 4, 7, sender, smtp, sentAt);
      && r.recipients[1].status == Sent && r.recipients[2].status == RecipientStatus.Failed
      && r.recipients[3].status == Sent && r.campaigns[7].status == Completed
      && |r.mails| == 3 && r.mails[0].to == a && r.mails[1].to == b && r.mails[2].to == d
  {
    var rs := map[1 := NewRecipient(7, a), 2 := NewRecipient(7, b), 3 := NewRecipient(7, d)];
    var smtp := Smtp(true, i => i != 1, true);
    SnapshotOfThree(rs);
    DispatchOutcome(map[7 := c], rs, 4, 7, sender, smtp, sentAt, 0);
    DispatchOutcome(map[7 := c], rs, 4, 7, sender, smtp, sentAt, 1);
    DispatchOutcome(map[7 := c], rs, 4, 7, sender, smtp, sentAt, 2);
  }

  // ---------------------------------------------------------------------
  // The worker
  // ---------------------------------------------------------------------

  /** Record one attempt: `Sent` with the send time when `sendmail`
      returned, `Failed` when it raised. */
  method Record(db: Database, id: Id, accepted: bool, at: Timestamp)
    requires id in db.recipients
    modifies db
    ensures db.recipients == old(db.recipients)[id := Attempt(old(db.recipients)[id], accepted, at)]
    ensures db.campaigns == old(db.campaigns) && db.events == old(db.events)
    ensures db.nextCampaignId == old(db.nextCampaignId) && db.nextRecipientId == old(db.nextRecipientId)
            && db.nextEventId == old(db.nextEventId)
  {
    var r := db.recipients[id];
    if accepted {
      db.recipients := db.recipients[id := r.(status := Sent, sentAt := Some(at))];
    } else {
      db.recipients := db.recipients[id := r.(status := RecipientStatus.Failed)];
    }
  }

  /** The recipient loop of `send_async`: for each snapshotted recipient in
      turn, compose its body, send, and record the outcome. */
  method DeliverAll(db: Database, campaign: Campaign, snap: seq<Id>, sender: string, smtp: Smtp,
                    clock: nat -> Timestamp)
    returns (mails: seq<Mail>)
    requires InStore(db.recipients, snap)
    modifies db
    ensures db.recipients == RunPrefix(old(db.recipients), snap, |snap|, smtp, clock)
    ensures mails == Outbox(old(db.recipients), snap, sender, campaign)
    ensures db.campaigns == old(db.campaigns) && db.events == old(db.events)
    ensures db.nextCampaignId == old(db.nextCampaignId) && db.nextRecipientId == old(db.nextRecipientId)
            && db.nextEventId == old(db.nextEventId)
  {
    ghost var rs0 := db.recipients;
    ghost var outbox := Outbox(rs0, snap, sender, campaign);
    mails := [];
    var i := 0;
    while i < |snap|
      invariant 0 <= i <= |snap|
      invariant db.recipients == RunPrefix(rs0, snap, i, smtp, clock)
      invariant mails == outbox[..i]
      invariant db.campaigns == old(db.campaigns) && db.events == old(db.events)
      invariant db.nextCampaignId == old(db.nextCampaignId) && db.nextRecipientId == old(db.nextRecipientId)
                && db.nextEventId == old(db.nextEventId)
    {
      var id := snap[i];
      var r := db.recipients[id];
      RunPrefixStep(rs0, snap, i, smtp, clock);
      RunPrefixKeepsIdentity(rs0, snap, i, smtp, clock, id);
      var html := Compose(campaign.body, id, BaseUrl);
      OutboxStep(rs0, snap, sender, campaign, i);
      mails := mails + [Mail(sender, r.email, campaign.subject, html)];
      Record(db, id, smtp.accepts(i), clock(i));
      i := i + 1;
    }
    assert outbox[..|snap|] == outbox;
  }

  /** `send_async`: look the campaign up, snapshot its pending recipients,
      run the recipient loop inside one SMTP session and set the final
      status. The returned sequence is the `sendmail` calls made, in order. */
  method SendAsync(db: Database, cid: Id, sender: string, smtp: Smtp, clock: nat -> Timestamp)
    returns (mails: seq<Mail>)
    requires db.Valid()
    modifies db
    ensures db.Valid()
    ensures var r := Dispatch(old(db.campaigns), old(db.recipients), old(db.nextRecipientId),
                              cid, sender, smtp, clock);
      db.campaigns == r.campaigns && db.recipients == r.recipients && mails == r.mails
    ensures db.events == old(db.events)
    ensures db.nextCampaignId == old(db.nextCampaignId) && db.nextRecipientId == old(db.nextRecipientId)
            && db.nextEventId == old(db.nextEventId)
  {
    mails := [];
    if cid !in db.campaigns {
      return;
    }
    var campaign := db.campaigns[cid];
    var snap := PendingSnapshot(db.recipients, cid, db.nextRecipientId);
    DispatchConsistent(db.campaigns, db.recipients, db.events, db.nextCampaignId,
                       db.nextRecipientId, db.nextEventId, cid, sender, smtp, clock);
    if !smtp.opens {
      db.campaigns := db.campaigns[cid := campaign.(status := CampaignStatus.Failed)];
      return;
    }
    mails := DeliverAll(db, campaign, snap, sender, smtp, clock);
    db.campaigns := db.campaigns[cid := campaign.(status := Completed)];
    if !smtp.quits {
      db.campaigns := db.campaigns[cid := campaign.(status := CampaignStatus.Failed)];
    }
  }
}
