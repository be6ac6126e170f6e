/**
 * The WhatsApp notification dispatcher: recipient formatting, template
 * selection, the provider's answer, the delivery log row, the single-customer
 * send (request validation, then one send, then one log row) and the daily
 * appointment-reminder sweep.
 *
 * The messaging provider is not called: each send is answered by a
 * `TwilioReply` the caller supplies. The log table and the provider's outbox
 * are sequences that only grow.
 */
module WhatsApp {
  import opened Wrappers
  import Domain

  // ---------------------------------------------------------------------
  // Recipient formatting
  // ---------------------------------------------------------------------

  /** The provider's channel prefix for WhatsApp addresses. */
  const ChannelPrefix := "whatsapp:"
  /** The fixed country code put in front of national numbers. */
  const CountryCode := "+49"

  /** Removes at most one leading zero (the national trunk prefix). */
  function DropTrunkZero(s: string): (r: string)
    ensures "0" <= s ==> s == "0" + r
    ensures !("0" <= s) ==> r == s
  {
    if |s| > 0 && s[0] == '0' then s[1..] else s
  }

  /**
   * The address a message is sent to: an address that already carries the
   * channel prefix is used as it is; an international number ("+...") only
   * gets the prefix; anything else is a national number whose trunk zero is
   * replaced by the country code.
   */
  function FormatRecipient(to: string): (r: string)
    ensures ChannelPrefix <= r
    ensures ChannelPrefix <= to ==> r == to
  {
    if ChannelPrefix <= to then to
    else ChannelPrefix + (if "+" <= to then to else CountryCode + DropTrunkZero(to))
  }

  /** Formatting an already formatted address changes nothing. */
  lemma FormatRecipientIdempotent(to: string)
    ensures FormatRecipient(FormatRecipient(to)) == FormatRecipient(to)
  {
  }

  /** An international number is only given the channel prefix. */
  lemma FormatRecipientInternational(to: string)
    requires "+" <= to
    ensures FormatRecipient(to) == ChannelPrefix + to
  {
    assert to[0] == '+';
    assert !(ChannelPrefix <= to) by { assert ChannelPrefix[0] != '+'; }
  }

  /**
   * A national number becomes prefix, country code and the number less its
   * trunk zero: a leading zero is always dropped, and only one.
   */
  lemma FormatRecipientNational(to: string)
    requires !(ChannelPrefix <= to) && !("+" <= to)
    ensures FormatRecipient(to) == ChannelPrefix + CountryCode + DropTrunkZero(to)
    ensures "0" <= to ==> FormatRecipient(to) == ChannelPrefix + CountryCode + to[1..]
  {
  }

  /** No digit the caller supplied is lost except a trunk zero: it is a suffix of the address. */
  lemma FormatRecipientKeepsNumber(to: string)
    ensures var n := DropTrunkZero(to);
            |n| <= |FormatRecipient(to)| && FormatRecipient(to)[|FormatRecipient(to)| - |n|..] == n
  {
    var r := FormatRecipient(to);
    if ChannelPrefix <= to {
      assert DropTrunkZero(to) == to;
    } else if "+" <= to {
      assert DropTrunkZero(to) == to;
      assert r == ChannelPrefix + to;
      assert r[|r| - |to|..] == to;
    } else {
      var n := DropTrunkZero(to);
      assert r == (ChannelPrefix + CountryCode) + n;
      assert r[|r| - |n|..] == n;
    }
  }

  /** The worked example: a German landline number with its trunk zero. */
  lemma FormatRecipientExample()
    ensures FormatRecipient("05251123456") == "whatsapp:+495251123456"
  {
    assert !(ChannelPrefix <= "05251123456") by {
      assert "05251123456"[0] != ChannelPrefix[0];
    }
    assert !("+" <= "05251123456") by {
      assert "05251123456"[0] != '+';
    }
  }

  // ---------------------------------------------------------------------
  // Templates
  // ---------------------------------------------------------------------

  /** The eight message templates; the rendered German text is not modelled. */
  datatype Template =
    | Consultation
    | Contract
    | GridApplication
    | Installation
    | Commissioning
    | FeedIn
    | DocumentReady
    | AppointmentReminder

  /** The key each template is registered under. */
  function TemplateName(t: Template): string {
    match t
    case Consultation => "consultation"
    case Contract => "contract"
    case GridApplication => "grid_application"
    case Installation => "installation"
    case Commissioning => "commissioning"
    case FeedIn => "feed_in"
    case DocumentReady => "document_ready"
    case AppointmentReminder => "appointment_reminder"
  }

  /** The template table, keyed by trigger or milestone key. */
  const Templates: map<string, Template> := map[
    "consultation" := Consultation,
    "contract" := Contract,
    "grid_application" := GridApplication,
    "installation" := Installation,
    "commissioning" := Commissioning,
    "feed_in" := FeedIn,
    "document_ready" := DocumentReady,
    "appointment_reminder" := AppointmentReminder
  ]

  /** The key looked up: the milestone key when it is given, otherwise the trigger. */
  function LookupKey(milestoneKey: Option<string>, trigger: string): string {
    milestoneKey.GetOr(trigger)
  }

  /** Template selection with its silent default: an unknown key gives Commissioning. */
  function SelectTemplate(milestoneKey: Option<string>, trigger: string): (t: Template)
    ensures LookupKey(milestoneKey, trigger) in Templates ==>
              t == Templates[LookupKey(milestoneKey, trigger)]
    ensures LookupKey(milestoneKey, trigger) !in Templates ==> t == Commissioning
  {
    var key := milestoneKey.GetOr(trigger);
    if key in Templates then Templates[key] else Commissioning
  }

  /** Every template is reachable by its own name, and the table holds nothing else. */
  lemma TemplateNamesRoundTrip(t: Template)
    ensures TemplateName(t) in Templates && Templates[TemplateName(t)] == t
    ensures SelectTemplate(None, TemplateName(t)) == t
    ensures forall k :: k in Templates ==> TemplateName(Templates[k]) == k
  {
  }

  /** A given milestone key decides the template; the trigger is then ignored, even for "". */
  lemma MilestoneKeyWins(key: string, trigger: string, other: string)
    ensures SelectTemplate(Some(key), trigger) == SelectTemplate(Some(key), other)
    ensures SelectTemplate(Some(key), trigger) == SelectTemplate(None, key)
  {
  }

  /** Every project status but "completed" names its own template; "completed" falls back. */
  lemma ProjectStatusTemplates(s: Domain.ProjectStatus)
    ensures s != Domain.Completed ==>
              Domain.ProjectStatusKey(s) in Templates &&
              TemplateName(SelectTemplate(None, Domain.ProjectStatusKey(s))) == Domain.ProjectStatusKey(s)
    ensures s == Domain.Completed ==>
              Domain.ProjectStatusKey(s) !in Templates &&
              SelectTemplate(None, Domain.ProjectStatusKey(s)) == Commissioning
  {
  }

  /** A message: the template and the arguments it is rendered with. */
  datatype Message = Message(template: Template, name: string, detail: Option<string>)

  // ---------------------------------------------------------------------
  // The provider's answer
  // ---------------------------------------------------------------------

  /**
   * The HTTP answer of the messaging provider: status ok?, and the JSON fields
   * sid and message, either of which the body may lack.
   */
  datatype TwilioReply = TwilioReply(ok: bool, sid: Option<string>, message: Option<string>)

  /**
   * What a send yields: a message id, or an error text. A success carries
   * whatever sid the provider's body held, which may be none.
   */
  datatype SendResult = Sid(sid: Option<string>) | Err(error: string)

  /** The error text used when the provider gives none. */
  const DefaultSendError := "Twilio error"

  /** The provider reply as a send result: an error exactly when the status is not ok. */
  function ResultOf(reply: TwilioReply): (r: SendResult)
    ensures r.Err? <==> !reply.ok
    ensures r.Sid? ==> r.sid == reply.sid
    ensures r.Err? ==> r.error == reply.message.GetOr(DefaultSendError)
  {
    if !reply.ok then Err(reply.message.GetOr(DefaultSendError)) else Sid(reply.sid)
  }

  /** One message handed to the provider. */
  datatype Outbound = Outbound(to: string, body: Message)

  // ---------------------------------------------------------------------
  // The delivery log
  // ---------------------------------------------------------------------

  datatype DeliveryStatus = Sent | Failed

  /** One row of the notification log. */
  datatype LogRow = LogRow(
    customerId: string,
    projectId: Option<string>,
    phone: string,
    message: Message,
    trigger: string,
    milestoneKey: Option<string>,
    twilioSid: Option<string>,
    status: DeliveryStatus,
    sentAt: Option<int>,
    error: Option<string>)

  /**
   * A row is consistent when the send time is present exactly when sent, an
   * error exactly when failed, and a sid only when sent.
   */
  predicate Consistent(row: LogRow) {
    && (row.twilioSid.Some? ==> row.status == Sent)
    && (row.sentAt.Some? <==> row.status == Sent)
    && (row.error.Some? <==> row.status == Failed)
  }

  /** The log row recorded for one send attempt. */
  function LogEntry(customerId: string, projectId: Option<string>, phone: string, message: Message,
                    trigger: string, milestoneKey: Option<string>, result: SendResult, now: int): (row: LogRow)
    ensures Consistent(row)
    ensures row.status == Sent <==> result.Sid?
    ensures result.Sid? ==> row.twilioSid == result.sid && row.sentAt == Some(now) && row.error == None
    ensures result.Err? ==> row.error == Some(result.error) && row.twilioSid == None && row.sentAt == None
    ensures row.customerId == customerId && row.projectId == projectId && row.phone == phone
    ensures row.message == message && row.trigger == trigger && row.milestoneKey == milestoneKey
  {
    match result
    case Sid(sid) =>
      LogRow(customerId, projectId, phone, message, trigger, milestoneKey, sid, Sent, Some(now), None)
    case Err(e) =>
      LogRow(customerId, projectId, phone, message, trigger, milestoneKey, None, Failed, None, Some(e))
  }

  /** The provider call that a log row records. */
  function SendOf(row: LogRow): Outbound {
    Outbound(FormatRecipient(row.phone), row.message)
  }

  /** The provider calls recorded by a sequence of log rows, in order. */
  function SendsOf(rows: seq<LogRow>): (sends: seq<Outbound>)
    ensures |sends| == |rows| && forall i :: 0 <= i < |rows| ==> sends[i] == SendOf(rows[i])
  {
    seq(|rows|, i requires 0 <= i < |rows| => SendOf(rows[i]))
  }

  /** The number of rows whose status is Sent. */
  function CountSent(rows: seq<LogRow>): (n: nat)
    decreases |rows|
  {
    if rows == [] then 0
    else CountSent(rows[..|rows| - 1]) + (if rows[|rows| - 1].status == Sent then 1 else 0)
  }

  /** No more rows can be sent than there are rows. */
  lemma {:induction false} CountSentBound(rows: seq<LogRow>)
    ensures CountSent(rows) <= |rows|
    ensures CountSent(rows) == |rows| <==> forall k :: 0 <= k < |rows| ==> rows[k].status == Sent
    decreases |rows|
  {
    if rows != [] {
      var init := rows[..|rows| - 1];
      CountSentBound(init);
      assert forall k :: 0 <= k < |init| ==> init[k] == rows[k];
    }
  }

  // ---------------------------------------------------------------------
  // Single-customer send
  // ---------------------------------------------------------------------

  /** The request body; absent and null fields are None. */
  datatype SendRequest = SendRequest(
    customerId: Option<string>,
    trigger: Option<string>,
    milestoneKey: Option<string>,
    detail: Option<string>)

  /** The columns of a customer row the handler reads. */
  datatype Customer = Customer(id: string, firstName: string, phone: Option<string>)

  /** The handler's answers: 400, 404, 502 and success (with the stored, unformatted phone). */
  datatype PostResponse =
    | MissingFields
    | UnknownCustomer
    | SendFailed(error: string)
    | Delivered(sid: Option<string>, to: string)

  function PostStatus(r: PostResponse): int {
    match r
    case MissingFields => 400
    case UnknownCustomer => 404
    case SendFailed(_) => 502
    case Delivered(_, _) => 200
  }

  /** The customer can be messaged: the row exists and has a non-empty phone number. */
  predicate Reachable(customers: map<string, Customer>, id: string) {
    id in customers && Truthy(customers[id].phone)
  }

  /** What one request does: the answer, the provider calls and the log rows it adds. */
  datatype Dispatched = Dispatched(response: PostResponse, sends: seq<Outbound>, rows: seq<LogRow>)

  /**
   * The validation ladder: 400 when a required field is missing, 404 when the
   * customer cannot be messaged (both without a send or a log row); otherwise
   * exactly one send and exactly one log row, and 502 exactly when the
   * provider failed.
   */
  function Dispatch(req: SendRequest, customers: map<string, Customer>, reply: TwilioReply, now: int): (d: Dispatched)
    ensures !Truthy(req.customerId) || !Truthy(req.trigger) ==> d == Dispatched(MissingFields, [], [])
    ensures Truthy(req.customerId) && Truthy(req.trigger) && !Reachable(customers, req.customerId.value) ==>
              d == Dispatched(UnknownCustomer, [], [])
    ensures Truthy(req.customerId) && Truthy(req.trigger) && Reachable(customers, req.customerId.value) ==>
              var c := customers[req.customerId.value];
              var message := Message(SelectTemplate(req.milestoneKey, req.trigger.value), c.firstName, req.detail);
              && d.rows == [LogEntry(c.id, None, c.phone.value, message, req.trigger.value, req.milestoneKey,
                                     ResultOf(reply), now)]
              && d.sends == [Outbound(FormatRecipient(c.phone.value), message)]
              && (d.rows[0].status == Sent <==> reply.ok)
              && (PostStatus(d.response) == 502 <==> !reply.ok)
              && (reply.ok ==> d.response == Delivered(reply.sid, c.phone.value))
              && (!reply.ok ==> d.response == SendFailed(reply.message.GetOr(DefaultSendError)))
  {
    if !Truthy(req.customerId) || !Truthy(req.trigger) then Dispatched(MissingFields, [], [])
    else if !Reachable(customers, req.customerId.value) then Dispatched(UnknownCustomer, [], [])
    else
      var c := customers[req.customerId.value];
      var message := Message(SelectTemplate(req.milestoneKey, req.trigger.value), c.firstName, req.detail);
      var result := ResultOf(reply);
      var row := LogEntry(c.id, None, c.phone.value, message, req.trigger.value, req.milestoneKey, result, now);
      var response := match result
        case Sid(sid) => Delivered(sid, c.phone.value)
        case Err(e) => SendFailed(e);
      Dispatched(response, [SendOf(row)], [row])
  }

  // ---------------------------------------------------------------------
  // Daily appointment-reminder sweep
  // ---------------------------------------------------------------------

  /** The customer fields joined onto a project row. */
  datatype Contact = Contact(firstName: string, phone: Option<string>)

  /** A project whose installation is tomorrow, with its customer if the join found one. */
  datatype ProjectRow = ProjectRow(id: string, customerId: string, customer: Option<Contact>)

  /** The sweep skips projects whose customer is missing or has no phone. */
  predicate HasPhone(p: ProjectRow) {
    p.customer.Some? && Truthy(p.customer.value.phone)
  }

  /** The trigger recorded for reminders. */
  const ReminderTrigger := "appointment_reminder"

  /** The log row for the reminder sent to one project's customer. */
  function ReminderRow(p: ProjectRow, reply: TwilioReply, dateText: string, now: int): (row: LogRow)
    requires HasPhone(p)
    ensures row.customerId == p.customerId && row.projectId == Some(p.id)
    ensures row.phone == p.customer.value.phone.value
    ensures row.message == Message(AppointmentReminder, p.customer.value.firstName, Some(dateText))
    ensures row.trigger == ReminderTrigger && row.milestoneKey == None
    ensures Consistent(row) && (row.status == Sent <==> reply.ok)
    ensures reply.ok ==> row.twilioSid == reply.sid && row.sentAt == Some(now)
    ensures !reply.ok ==> row.error == Some(reply.message.GetOr(DefaultSendError))
  {
    var contact := p.customer.value;
    LogEntry(p.customerId, Some(p.id), contact.phone.value,
             Message(AppointmentReminder, contact.firstName, Some(dateText)),
             ReminderTrigger, None, ResultOf(reply), now)
  }

  /**
   * The rows the sweep appends, for projects `ps`: `replies(i)` answers the
   * send for `ps[i]`, and `nows(i)` is the clock reading its log row takes.
   */
  function ReminderRows(ps: seq<ProjectRow>, replies: nat -> TwilioReply, dateText: string, nows: nat -> int)
    : (rows: seq<LogRow>)
    ensures |rows| <= |ps|
    decreases |ps|
  {
    if ps == [] then []
    else
      var i := |ps| - 1;
      ReminderRows(ps[..i], replies, dateText, nows)
        + (if HasPhone(ps[i]) then [ReminderRow(ps[i], replies(i), dateText, nows(i))] else [])
  }

  /** The number of projects with a phone. */
  function CountWithPhone(ps: seq<ProjectRow>): (n: nat)
    ensures n <= |ps|
    decreases |ps|
  {
    if ps == [] then 0 else CountWithPhone(ps[..|ps| - 1]) + (if HasPhone(ps[|ps| - 1]) then 1 else 0)
  }

  /** The positions of the projects that have a phone, in increasing order, each once. */
  function PhoneIndices(ps: seq<ProjectRow>): (idx: seq<nat>)
    ensures |idx| == CountWithPhone(ps)
    ensures forall k :: 0 <= k < |idx| ==> idx[k] < |ps| && HasPhone(ps[idx[k]])
    ensures forall k, l :: 0 <= k < l < |idx| ==> idx[k] < idx[l]
    ensures forall i :: 0 <= i < |ps| && HasPhone(ps[i]) ==> i in idx
    decreases |ps|
  {
    if ps == [] then []
    else
      var i := |ps| - 1;
      var init := PhoneIndices(ps[..i]);
      assert forall k :: 0 <= k < |init| ==> ps[..i][init[k]] == ps[init[k]];
      init + (if HasPhone(ps[i]) then [i] else [])
  }

  /** The sweep writes exactly one row per project with a phone. */
  lemma {:induction false} ReminderRowsCount(ps: seq<ProjectRow>, replies: nat -> TwilioReply, dateText: string, nows: nat -> int)
    ensures |ReminderRows(ps, replies, dateText, nows)| == CountWithPhone(ps)
    decreases |ps|
  {
    if ps != [] {
      ReminderRowsCount(ps[..|ps| - 1], replies, dateText, nows);
    }
  }

  /** The `k`-th row the sweep writes is the reminder for the `k`-th project with a phone. */
  lemma {:induction false} ReminderRowAt(ps: seq<ProjectRow>, replies: nat -> TwilioReply, dateText: string, nows: nat -> int, k: nat)
    requires k < |ReminderRows(ps, replies, dateText, nows)|
    ensures var idx := PhoneIndices(ps);
            && k < |idx|
            && ReminderRows(ps, replies, dateText, nows)[k] == ReminderRow(ps[idx[k]], replies(idx[k]), dateText, nows(idx[k]))
    decreases |ps|
  {
    var i := |ps| - 1;
    var init := ps[..i];
    var rows0 := ReminderRows(init, replies, dateText, nows);
    var idx0 := PhoneIndices(init);
    if k < |rows0| {
      ReminderRowAt(init, replies, dateText, nows, k);
      assert init[idx0[k]] == ps[idx0[k]];
    } else {
      ReminderRowsCount(init, replies, dateText, nows);
    }
  }

  /**
   * The sweep writes, in order, one reminder row for each project with a
   * phone, addressed to that project's customer, and nothing for the others;
   * sent <= with phone <= total.
   */
  lemma ReminderRowsShape(ps: seq<ProjectRow>, replies: nat -> TwilioReply, dateText: string, nows: nat -> int)
    ensures var rows := ReminderRows(ps, replies, dateText, nows);
            var idx := PhoneIndices(ps);
            && |rows| == |idx|
            && CountSent(rows) <= CountWithPhone(ps) <= |ps|
            && forall k :: 0 <= k < |rows| ==> rows[k] == ReminderRow(ps[idx[k]], replies(idx[k]), dateText, nows(idx[k]))
  {
    var rows := ReminderRows(ps, replies, dateText, nows);
    CountSentBound(rows);
    ReminderRowsCount(ps, replies, dateText, nows);
    forall k | 0 <= k < |rows|
      ensures rows[k] == ReminderRow(ps[PhoneIndices(ps)[k]], replies(PhoneIndices(ps)[k]), dateText, nows(PhoneIndices(ps)[k]))
    {
      ReminderRowAt(ps, replies, dateText, nows, k);
    }
  }


  /** When every send succeeds, the sweep reports one success per project with a phone. */
  lemma {:induction false} AllDeliveredSweep(ps: seq<ProjectRow>, replies: nat -> TwilioReply, dateText: string, nows: nat -> int)
    requires forall i: nat :: replies(i).ok
    ensures CountSent(ReminderRows(ps, replies, dateText, nows)) == CountWithPhone(ps)
    decreases |ps|
  {
    if ps != [] {
      var i := |ps| - 1;
      AllDeliveredSweep(ps[..i], replies, dateText, nows);
      var init := ReminderRows(ps[..i], replies, dateText, nows);
      if HasPhone(ps[i]) {
        var rows := init + [ReminderRow(ps[i], replies(i), dateText, nows(i))];
        assert rows[..|rows| - 1] == init;
      } else {
        assert ReminderRows(ps, replies, dateText, nows) == init;
      }
    }
  }

  /**
   * `secret !== process.env.CRON_SECRET` fails: a missing header is null and a
   * missing setting undefined, so two missing values never match.
   */
  predicate Authorized(secret: Option<string>, cronSecret: Option<string>): (b: bool)
    ensures b ==> secret == cronSecret
    ensures secret.None? || cronSecret.None? ==> !b
    ensures secret.Some? && secret == cronSecret ==> b
  {
    secret.Some? && cronSecret.Some? && secret.value == cronSecret.value
  }

  /** The sweep's answers: 401, or success with the counts. */
  datatype SweepResponse = Unauthorized | SweepDone(sent: nat, total: nat)

  // ---------------------------------------------------------------------
  // The dispatcher's state
  // ---------------------------------------------------------------------

  /** The notification log table and the messages handed to the provider. */
  class NotificationService {
    var log: seq<LogRow>
    var outbox: seq<Outbound>

    /** Every provider call has its one log row, in the same order, and every row is consistent. */
    ghost predicate Valid()
      reads this
    {
      && outbox == SendsOf(log)
      && forall k :: 0 <= k < |log| ==> Consistent(log[k])
    }

    constructor ()
      ensures Valid() && log == [] && outbox == []
    {
      log := [];
      outbox := [];
    }

    /** Appends one send and its log row. */
    method Record(row: LogRow)
      requires Valid() && Consistent(row)
      modifies this
      ensures Valid()
      ensures log == old(log) + [row] && outbox == old(outbox) + [SendOf(row)]
    {
      log := log + [row];
      outbox := outbox + [SendOf(row)];
      assert log[..|log| - 1] == old(log);
    }

    /** The single-customer send: validate, look the customer up, send once, log once. */
    method Post(req: SendRequest, customers: map<string, Customer>, reply: TwilioReply, now: int)
      returns (response: PostResponse)
      requires Valid()
      modifies this
      ensures Valid()
      ensures var d := Dispatch(req, customers, reply, now);
              response == d.response && log == old(log) + d.rows && outbox == old(outbox) + d.sends
    {
      if !Truthy(req.customerId) || !Truthy(req.trigger) {
        return MissingFields;
      }
      var id := req.customerId.value;
      if id !in customers || !Truthy(customers[id].phone) {
        return UnknownCustomer;
      }
      var customer := customers[id];
      var phone := customer.phone.value;
      var message := Message(SelectTemplate(req.milestoneKey, req.trigger.value), customer.firstName, req.detail);
      var result := ResultOf(reply);
      Record(LogEntry(customer.id, None, phone, message, req.trigger.value, req.milestoneKey, result, now));
      if result.Err? {
        return SendFailed(result.error);
      }
      return Delivered(result.sid, phone);
    }

    /**
     * The sweep's loop: a project without a phone is skipped; every other
     * project gets one send and one log row, and successful sends are counted.
     */
    method RemindAll(ps: seq<ProjectRow>, replies: nat -> TwilioReply, dateText: string, nows: nat -> int)
      returns (sent: nat)
      requires Valid()
      modifies this
      ensures Valid()
      ensures log == old(log) + ReminderRows(ps, replies, dateText, nows)
      ensures sent == CountSent(ReminderRows(ps, replies, dateText, nows))
    {
      sent := 0;
      var i := 0;
      ghost var start, rows: seq<LogRow> := log, [];
      while i < |ps|
        invariant 0 <= i <= |ps|
        invariant Valid()
        invariant rows == ReminderRows(ps[..i], replies, dateText, nows)
        invariant log == start + rows
        invariant sent == CountSent(rows)
      {
        ghost var before := log;
        if HasPhone(ps[i]) {
          var row := ReminderRow(ps[i], replies(i), dateText, nows(i));
          Record(row);
          if row.status == Sent {
            sent := sent + 1;
          }
        }
        SweepStep(start, before, log, ps, i, replies, dateText, nows);
        rows := ReminderRows(ps[..i + 1], replies, dateText, nows);
        i := i + 1;
      }
      assert ps[..|ps|] == ps;
    }

    /**
     * The daily sweep over the projects installed tomorrow (`projects` is None
     * when the query returned no data): a wrong secret changes nothing; every
     * project with a phone gets one send and one log row, the others none.
     */
    method RemindTomorrow(secret: Option<string>, cronSecret: Option<string>, projects: Option<seq<ProjectRow>>,
                          replies: nat -> TwilioReply, dateText: string, nows: nat -> int)
      returns (response: SweepResponse)
      requires Valid()
      modifies this
      ensures Valid()
      ensures !Authorized(secret, cronSecret) ==>
                response == Unauthorized && log == old(log) && outbox == old(outbox)
      ensures Authorized(secret, cronSecret) ==>
                var ps := projects.GetOr([]);
                var rows := ReminderRows(ps, replies, dateText, nows);
                && log == old(log) + rows
                && outbox == old(outbox) + SendsOf(rows)
                && response == SweepDone(CountSent(rows), |ps|)
    {
      if !Authorized(secret, cronSecret) {
        return Unauthorized;
      }
      var ps := projects.GetOr([]);
      var sent := RemindAll(ps, replies, dateText, nows);
      ghost var rows := ReminderRows(ps, replies, dateText, nows);
      SendsOfAppend(old(log), rows);
      response := SweepDone(sent, |ps|);
    }
  }

  /** The provider calls of two stretches of log are those of each, in order. */
  lemma SendsOfAppend(a: seq<LogRow>, b: seq<LogRow>)
    ensures SendsOf(a + b) == SendsOf(a) + SendsOf(b)
  {
    assert forall i :: 0 <= i < |b| ==> (a + b)[|a| + i] == b[i];
  }

  /** The sweep's rows for one more project: its reminder row if it has a phone. */
  lemma ReminderRowsStep(ps: seq<ProjectRow>, i: nat, replies: nat -> TwilioReply, dateText: string, nows: nat -> int)
    requires i < |ps|
    ensures HasPhone(ps[i]) ==>
              ReminderRows(ps[..i + 1], replies, dateText, nows)
              == ReminderRows(ps[..i], replies, dateText, nows) + [ReminderRow(ps[i], replies(i), dateText, nows(i))]
    ensures !HasPhone(ps[i]) ==>
              ReminderRows(ps[..i + 1], replies, dateText, nows) == ReminderRows(ps[..i], replies, dateText, nows)
  {
    assert ps[..i + 1][..i] == ps[..i];
  }

  /**
   * One step of the sweep's loop: whatever was appended for `ps[i]`
   * extends the log to the rows of `ps[..i + 1]`, and the count of sent rows
   * grows exactly when that project had a phone and its send succeeded.
   */
  lemma SweepStep(start: seq<LogRow>, before: seq<LogRow>, after: seq<LogRow>, ps: seq<ProjectRow>, i: nat,
                  replies: nat -> TwilioReply, dateText: string, nows: nat -> int)
    requires i < |ps|
    requires before == start + ReminderRows(ps[..i], replies, dateText, nows)
    requires HasPhone(ps[i]) ==> after == before + [ReminderRow(ps[i], replies(i), dateText, nows(i))]
    requires !HasPhone(ps[i]) ==> after == before
    ensures after == start + ReminderRows(ps[..i + 1], replies, dateText, nows)
    ensures CountSent(ReminderRows(ps[..i + 1], replies, dateText, nows))
            == CountSent(ReminderRows(ps[..i], replies, dateText, nows)) + (if HasPhone(ps[i]) && replies(i).ok then 1 else 0)
  {
    var rows := ReminderRows(ps[..i], replies, dateText, nows);
    ReminderRowsStep(ps, i, replies, dateText, nows);
    if HasPhone(ps[i]) {
      var row := ReminderRow(ps[i], replies(i), dateText, nows(i));
      CountSentAppend(rows, row);
      assert after == start + (rows + [row]);
    }
  }

  /** Counting sent rows one row at a time. */
  lemma CountSentAppend(rows: seq<LogRow>, row: LogRow)
    ensures CountSent(rows + [row]) == CountSent(rows) + (if row.status == Sent then 1 else 0)
  {
    assert (rows + [row])[..|rows|] == rows;
  }
}
