/** The importer component's state and the transitions its handlers make:
    sending a batch (`handleSend`), refreshing statuses from delivery
    receipts (`checkStatus`), the polling guard, `handleCancel` and
    `handleFileImport`.

    Each handler is one function from the state before to the state after.
    What the handler waits for is a parameter: the gateway's replies, the
    receipts, the file's text and the spreadsheet library's reading of it,
    and the clock's value. */
module Session {
  import opened Results
  import opened Text
  import opened Gateway
  import opened Contacts
  import opened Seqs

  /** The component's state. `lastUpdate` is a clock value supplied by the
      caller. */
  datatype AppState = AppState(
    data: Option<seq<Contact>>,
    fileName: Option<string>,
    lastUpdate: Option<int>,
    isSending: bool,
    progress: nat,
    successfulSends: nat,
    apiError: Option<string>,
    selectedOperator: Option<string>)

  const AllOperators := "All"
  const Pending := "PENDING"
  const Failed := "FAILED"
  const NamePlaceholder := "[Name]"
  const AuthBanner := "Authentication failed. Please check your SMS API credentials in the .env.local file."
  const StatusErrorPrefix := "Failed to check message statuses: "

  // ---------------------------------------------------------------------
  // handleSend: who is sent to, and what
  // ---------------------------------------------------------------------

  /** A send has something to do: contacts are loaded and an operator is
      chosen (the empty string counts as none). */
  predicate Ready(s: AppState) {
    s.data.Some? && s.selectedOperator.Some? && s.selectedOperator.value != ""
  }

  /** A contact is sent to when it belongs to the chosen operator (or every
      operator is chosen) and its phone is not tagged as invalid. */
  predicate Eligible(selected: string, c: Contact) {
    (selected == AllOperators || c.operator == selected) && !StartsWith(c.phone, "Invalid")
  }

  function EligibleFor(selected: string): Contact -> bool {
    c => Eligible(selected, c)
  }

  function EligibleContacts(selected: string, data: seq<Contact>): (es: seq<Contact>)
    ensures |es| <= |data|
    ensures forall k | 0 <= k < |es| :: Eligible(selected, es[k])
  {
    Filter(data, EligibleFor(selected))
  }

  /** Exactly the eligible contacts are sent to, in their order in the
      data. */
  lemma EligibleContactsExact(selected: string, data: seq<Contact>)
    ensures forall c :: c in EligibleContacts(selected, data) <==> c in data && Eligible(selected, c)
    ensures Subseq(EligibleContacts(selected, data), data)
  {
    forall c
      ensures c in EligibleContacts(selected, data) <==> c in data && Eligible(selected, c)
    {
      FilterMembership(data, EligibleFor(selected), c);
    }
    FilterSubseq(data, EligibleFor(selected));
  }

  /** A contact the importer tagged as invalid is never sent to, whatever
      operator is chosen. */
  lemma InvalidNeverSent(selected: string, row: Row)
    requires !Phone.Validate(RawPhone(row)).isValid
    ensures !Eligible(selected, FormatContact(row))
  {
    var c := FormatContact(row);
    assert c.phone[..7] == (InvalidTag + RawPhone(row))[..7] == "Invalid";
  }

  /** The text sent to a contact: the template with its first `[Name]`
      replaced by the contact's name. */
  function RenderMessage(template: string, name: string): string {
    ReplaceFirst(template, NamePlaceholder, name)
  }

  /** The requests of one batch, one per eligible contact, in order. */
  function Requests(selected: string, data: seq<Contact>, template: string): (qs: seq<SendRequest>)
    ensures |qs| == |EligibleContacts(selected, data)|
  {
    var es := EligibleContacts(selected, data);
    seq(|es|, k requires 0 <= k < |es| => RequestFor(es[k].phone, RenderMessage(template, es[k].name)))
  }

  /** Request k goes to the k-th eligible contact (the one the batch
      settles with the k-th reply), which is a loaded, eligible contact:
      its phone with the country code in front, and the template
      personalised with its name. */
  lemma RequestsGoToEligible(selected: string, data: seq<Contact>, template: string, k: nat)
    requires k < |Requests(selected, data, template)|
    ensures k < |EligibleContacts(selected, data)|
    ensures var c := EligibleContacts(selected, data)[k];
            && c in data && Eligible(selected, c)
            && Requests(selected, data, template)[k].mobiles == "237" + c.phone
            && Requests(selected, data, template)[k].sms == RenderMessage(template, c.name)
  {
    var es := EligibleContacts(selected, data);
    EligibleContactsExact(selected, data);
    assert es[k] in es;
  }

  // ---------------------------------------------------------------------
  // handleSend: settling each send
  // ---------------------------------------------------------------------

  /** The outcome of each send, as the gateway client reports it. */
  function Outcomes(replies: seq<HttpReply>): (os: seq<Result<Json>>)
    ensures |os| == |replies|
    ensures forall k | 0 <= k < |replies| :: os[k] == ClassifySend(replies[k])
  {
    seq(|replies|, k requires 0 <= k < |replies| => ClassifySend(replies[k]))
  }

  /** The batch aborts when some send failed with the authentication
      message. */
  predicate AuthFailed(outcomes: seq<Result<Json>>) {
    exists k | 0 <= k < |outcomes| :: outcomes[k] == Err(AuthMessage)
  }

  /** A contact after its send: PENDING with the gateway's message id when
      the reply carries one, FAILED (keeping any earlier id) otherwise.
      Nothing else about the contact changes. */
  function Settle(c: Contact, outcome: Result<Json>): (u: Contact)
    ensures u.(status := c.status, messageId := c.messageId) == c
    ensures u.status == Pending <==> outcome.Ok? && FirstMessageId(outcome.value).Some?
    ensures u.status == Pending ==> u.messageId == FirstMessageId(outcome.value)
    ensures u.status != Pending ==> u.status == Failed && u.messageId == c.messageId
  {
    match outcome
    case Ok(v) =>
      (match FirstMessageId(v)
       case Some(id) => c.(status := Pending, messageId := Some(id))
       case None => c.(status := Failed))
    case Err(_) => c.(status := Failed)
  }

  /** The settled contacts of one batch, in send order. */
  function Batch(es: seq<Contact>, outcomes: seq<Result<Json>>): (batch: seq<Contact>)
    requires |outcomes| == |es|
    ensures |batch| == |es|
    ensures forall k | 0 <= k < |es| :: batch[k] == Settle(es[k], outcomes[k])
  {
    seq(|es|, k requires 0 <= k < |es| => Settle(es[k], outcomes[k]))
  }

  /** A send returned normally (the counter is raised before the reply's
      id is checked). */
  predicate Returned(outcome: Result<Json>) {
    outcome.Ok?
  }

  /** How many sends returned normally. */
  function CountOk(outcomes: seq<Result<Json>>): (n: nat)
    ensures n <= |outcomes|
    ensures n == |Filter(outcomes, Returned)|
  {
    if |outcomes| == 0 then 0
    else CountOk(outcomes[..|outcomes| - 1]) + (if outcomes[|outcomes| - 1].Ok? then 1 else 0)
  }

  /** The count is the whole batch exactly when no send failed, and zero
      exactly when every send failed. */
  lemma {:induction false} CountOkBounds(outcomes: seq<Result<Json>>)
    ensures CountOk(outcomes) == |outcomes| <==> forall k | 0 <= k < |outcomes| :: outcomes[k].Ok?
    ensures CountOk(outcomes) == 0 <==> forall k | 0 <= k < |outcomes| :: outcomes[k].Err?
  {
    if |outcomes| > 0 {
      var front := outcomes[..|outcomes| - 1];
      CountOkBounds(front);
      assert forall k | 0 <= k < |front| :: front[k] == outcomes[k];
    }
  }

  /** The first contact of the batch with the given phone. */
  function FindByPhone(batch: seq<Contact>, phone: string): (r: Option<nat>)
    ensures r.Some? ==> r.value < |batch| && batch[r.value].phone == phone
    ensures r.Some? ==> forall j | 0 <= j < r.value :: batch[j].phone != phone
    ensures r.None? ==> forall j | 0 <= j < |batch| :: batch[j].phone != phone
  {
    if |batch| == 0 then None
    else if batch[0].phone == phone then Some(0)
    else
      match FindByPhone(batch[1..], phone)
      case None => None
      case Some(j) => Some(j + 1)
  }

  /** The data after a batch: each contact is replaced by the first batch
      contact with the same phone, and kept when there is none. */
  function Merge(data: seq<Contact>, batch: seq<Contact>): (r: seq<Contact>)
    ensures |r| == |data|
    ensures forall i | 0 <= i < |data| :: r[i].phone == data[i].phone
    ensures forall i | 0 <= i < |data| ::
              (forall j | 0 <= j < |batch| :: batch[j].phone != data[i].phone) ==> r[i] == data[i]
  {
    seq(|data|, i requires 0 <= i < |data| =>
          match FindByPhone(batch, data[i].phone)
          case Some(j) => batch[j]
          case None => data[i])
  }

  /** A contact is replaced by the first batch result carrying its phone. */
  lemma MergeTakesFirstMatch(data: seq<Contact>, batch: seq<Contact>, i: nat, j: nat)
    requires i < |data| && j < |batch| && batch[j].phone == data[i].phone
    requires forall k | 0 <= k < j :: batch[k].phone != data[i].phone
    ensures Merge(data, batch)[i] == batch[j]
  {
    var f := FindByPhone(batch, data[i].phone);
    assert f.Some? && f.value == j;
  }

  // ---------------------------------------------------------------------
  // handleSend
  // ---------------------------------------------------------------------

  /** `handleSend`, with the gateway's reply to each send (one per eligible
      contact, in order) and the clock's value when the batch ends.

      Without contacts or an operator nothing happens. An authentication
      failure anywhere aborts the merge: the data stays as it was and the
      banner says why. Otherwise every contact is updated from the batch.
      Either way the batch ends idle at 100% with every normal return
      counted. */
  function HandleSend(s: AppState, replies: seq<HttpReply>, now: int): (r: AppState)
    requires Ready(s) ==> |replies| == |EligibleContacts(s.selectedOperator.value, s.data.value)|
    ensures !Ready(s) ==> r == s
    ensures Ready(s) ==> && !r.isSending && r.progress == 100
                         && r.successfulSends == CountOk(Outcomes(replies))
                         && r.fileName == s.fileName && r.selectedOperator == s.selectedOperator
    ensures Ready(s) && AuthFailed(Outcomes(replies)) ==>
              r.data == s.data && r.lastUpdate == s.lastUpdate && r.apiError == Some(AuthBanner)
    ensures Ready(s) && !AuthFailed(Outcomes(replies)) ==>
              && r.data.Some? && |r.data.value| == |s.data.value|
              && (forall i | 0 <= i < |s.data.value| :: r.data.value[i].phone == s.data.value[i].phone)
              && r.lastUpdate == Some(now) && r.apiError == None
              && r.data == Some(Merge(s.data.value, Batch(EligibleContacts(s.selectedOperator.value, s.data.value),
                                                          Outcomes(replies))))
  {
    if !Ready(s) then s
    else
      var selected := s.selectedOperator.value;
      var es := EligibleContacts(selected, s.data.value);
      var outcomes := Outcomes(replies);
      var done := s.(isSending := false, progress := 100, successfulSends := CountOk(outcomes));
      if AuthFailed(outcomes) then done.(apiError := Some(AuthBanner))
      else
        done.(data := Some(Merge(s.data.value, Batch(es, outcomes))),
              lastUpdate := Some(now), apiError := None)
  }

  /** Every contact's phone differs from every other's. */
  predicate DistinctPhones(data: seq<Contact>) {
    forall i, j | 0 <= i < j < |data| :: data[i].phone != data[j].phone
  }

  /** With distinct phones, a batch that was not aborted settles each
      eligible contact with its own send's outcome and leaves every other
      contact as it was. */
  lemma SendUpdatesEligible(s: AppState, replies: seq<HttpReply>, now: int, i: nat)
    requires Ready(s) && |replies| == |EligibleContacts(s.selectedOperator.value, s.data.value)|
    requires !AuthFailed(Outcomes(replies))
    requires DistinctPhones(s.data.value) && i < |s.data.value|
    ensures var c := s.data.value[i];
            var after := HandleSend(s, replies, now).data.value[i];
            if Eligible(s.selectedOperator.value, c) then
              exists k | 0 <= k < |replies| ::
                EligibleContacts(s.selectedOperator.value, s.data.value)[k] == c
                && after == Settle(c, ClassifySend(replies[k]))
            else after == c
  {
    var data := s.data.value;
    var c := data[i];
    var es := EligibleContacts(s.selectedOperator.value, data);
    var batch := Batch(es, Outcomes(replies));
    EligibleContactsExact(s.selectedOperator.value, data);
    // A batch contact with c's phone is c itself.
    forall j | 0 <= j < |batch| && batch[j].phone == c.phone
      ensures es[j] == c
    {
      assert es[j] in es;
      var m :| 0 <= m < |data| && data[m] == es[j];
      assert data[m].phone == data[i].phone;
    }
    if Eligible(s.selectedOperator.value, c) {
      assert c in es;
      var k0 :| 0 <= k0 < |es| && es[k0] == c;
      var f := FindByPhone(batch, c.phone);
      assert batch[k0].phone == c.phone;
      assert f.Some?;
      assert HandleSend(s, replies, now).data.value[i] == batch[f.value];
    }
  }

  /** With distinct phones, a batch that was not aborted and in which some
      send came back with a message id arms the status polling. */
  lemma SendArmsPolling(s: AppState, replies: seq<HttpReply>, now: int, k: nat)
    requires Ready(s) && |replies| == |EligibleContacts(s.selectedOperator.value, s.data.value)|
    requires !AuthFailed(Outcomes(replies))
    requires DistinctPhones(s.data.value)
    requires k < |replies| && ClassifySend(replies[k]).Ok?
    requires FirstMessageId(ClassifySend(replies[k]).value).Some?
    ensures PollArmed(HandleSend(s, replies, now))
  {
    var data := s.data.value;
    var es := EligibleContacts(s.selectedOperator.value, data);
    var batch := Batch(es, Outcomes(replies));
    EligibleContactsExact(s.selectedOperator.value, data);
    assert es[k] in es;
    var i :| 0 <= i < |data| && data[i] == es[k];
    var f := FindByPhone(batch, data[i].phone);
    assert batch[k].phone == data[i].phone;
    var j := f.value;
    assert es[j] in es;
    var m :| 0 <= m < |data| && data[m] == es[j];
    assert data[m].phone == data[i].phone;
    assert m == i;
    // es has no repeated contact, so the first match is the send itself.
    DistinctPhonesNoDuplicates(data);
    FilterNoDuplicates(data, EligibleFor(s.selectedOperator.value));
    assert j == k;
    assert HandleSend(s, replies, now).data.value[i].status == Pending;
  }

  lemma DistinctPhonesNoDuplicates(data: seq<Contact>)
    requires DistinctPhones(data)
    ensures NoDuplicates(data)
  {
  }

  // ---------------------------------------------------------------------
  // progress
  // ---------------------------------------------------------------------

  /** `Math.round(sent / total * 100)` in exact arithmetic. */
  function ProgressPercent(sent: nat, total: nat): nat
    requires 0 < total
  {
    (200 * sent + total) / (2 * total)
  }

  /** The progress is the percentage of sends that returned normally,
      rounded to the nearest integer with halves rounded up, and never
      above 100. */
  lemma ProgressRounding(sent: nat, total: nat)
    requires 0 < total && sent <= total
    ensures var p := ProgressPercent(sent, total);
            p <= 100 && 2 * total * p <= 200 * sent + total < 2 * total * (p + 1)
  {
    var x := 200 * sent + total;
    var d := 2 * total;
    var p := x / d;
    assert x == d * p + x % d && 0 <= x % d < d;
    assert d * (p + 1) == d * p + d;
    assert x < d * 101;
    if p > 100 {
      MulMonotone(d, 101, p);
    }
  }

  /** The reported progress never goes backwards and runs from 0 to 100. */
  lemma ProgressMonotone(a: nat, b: nat, total: nat)
    requires 0 < total && a <= b <= total
    ensures ProgressPercent(a, total) <= ProgressPercent(b, total)
    ensures ProgressPercent(0, total) == 0 && ProgressPercent(total, total) == 100
  {
    var pa := ProgressPercent(a, total);
    var pb := ProgressPercent(b, total);
    ProgressRounding(a, total);
    ProgressRounding(b, total);
    if pa > pb {
      MulMonotone(2 * total, pb + 1, pa);
    }
    var p0 := ProgressPercent(0, total);
    ProgressRounding(0, total);
    if p0 > 0 {
      MulMonotone(2 * total, 1, p0);
    }
    var pt := ProgressPercent(total, total);
    ProgressRounding(total, total);
    if pt < 100 {
      MulMonotone(2 * total, pt + 1, 100);
    }
  }

  /** The progress on screen once the first `n` sends, in the order they
      settle, have settled: every normal return sets it from the count so
      far, and a send that throws leaves it as it was. */
  function ProgressAfter(outcomes: seq<Result<Json>>, n: nat): nat
    requires 0 < |outcomes| && n <= |outcomes|
  {
    ProgressPercent(CountOk(outcomes[..n]), |outcomes|)
  }

  /** During a batch the progress starts at 0, never goes backwards and
      never exceeds 100. */
  lemma ProgressAfterMonotone(outcomes: seq<Result<Json>>, m: nat, n: nat)
    requires 0 < |outcomes| && m <= n <= |outcomes|
    ensures ProgressAfter(outcomes, 0) == 0
    ensures ProgressAfter(outcomes, m) <= ProgressAfter(outcomes, n) <= 100
  {
    var t := |outcomes|;
    assert outcomes[..0] == [];
    CountOkPrefix(outcomes, m, n);
    assert CountOk(outcomes[..n]) <= n;
    ProgressMonotone(CountOk(outcomes[..m]), CountOk(outcomes[..n]), t);
    ProgressRounding(CountOk(outcomes[..n]), t);
  }

  /** A longer prefix of the batch has at least as many normal returns. */
  lemma {:induction false} CountOkPrefix(outcomes: seq<Result<Json>>, m: nat, n: nat)
    requires m <= n <= |outcomes|
    ensures CountOk(outcomes[..m]) <= CountOk(outcomes[..n])
    decreases n - m
  {
    if m < n {
      CountOkPrefix(outcomes, m, n - 1);
      assert outcomes[..n][..n - 1] == outcomes[..n - 1];
    }
  }

  lemma MulMonotone(m: nat, x: nat, y: nat)
    requires x <= y
    ensures m * x <= m * y
  {
  }

  // ---------------------------------------------------------------------
  // checkStatus
  // ---------------------------------------------------------------------

  /** The first receipt whose message id equals the contact's (`undefined`
      equals `undefined`). */
  function FindReceipt(receipts: seq<Receipt>, id: Option<string>): (r: Option<nat>)
    ensures r.Some? ==> r.value < |receipts| && receipts[r.value].messageid == id
    ensures r.Some? ==> forall k | 0 <= k < r.value :: receipts[k].messageid != id
    ensures r.None? ==> forall k | 0 <= k < |receipts| :: receipts[k].messageid != id
  {
    if |receipts| == 0 then None
    else if receipts[0].messageid == id then Some(0)
    else
      match FindReceipt(receipts[1..], id)
      case None => None
      case Some(k) => Some(k + 1)
  }

  /** A contact after a refresh: the status of its first receipt, or
      unchanged without one. */
  function Refreshed(c: Contact, receipts: seq<Receipt>): (u: Contact)
    ensures u.(status := c.status) == c
  {
    match FindReceipt(receipts, c.messageId)
    case Some(k) => c.(status := receipts[k].status)
    case None => c
  }

  function ApplyReceipts(data: seq<Contact>, receipts: seq<Receipt>): (r: seq<Contact>)
    ensures |r| == |data|
    ensures forall i | 0 <= i < |data| :: r[i].(status := data[i].status) == data[i]
  {
    seq(|data|, i requires 0 <= i < |data| => Refreshed(data[i], receipts))
  }

  /** A contact takes the status of the first receipt carrying its message
      id, and is unchanged when no receipt carries it. */
  lemma ReceiptDecidesStatus(data: seq<Contact>, receipts: seq<Receipt>, i: nat, k: nat)
    requires i < |data|
    ensures (forall j | 0 <= j < |receipts| :: receipts[j].messageid != data[i].messageId) ==>
              ApplyReceipts(data, receipts)[i] == data[i]
    ensures && k < |receipts| && receipts[k].messageid == data[i].messageId
            && (forall j | 0 <= j < k :: receipts[j].messageid != data[i].messageId) ==>
              ApplyReceipts(data, receipts)[i].status == receipts[k].status
  {
    var id := data[i].messageId;
    var f := FindReceipt(receipts, id);
    if && k < |receipts| && receipts[k].messageid == id
       && (forall j | 0 <= j < k :: receipts[j].messageid != id) {
      assert f.Some?;
      assert !(f.value < k) && !(k < f.value);
    }
  }

  /** Applying the same receipts again changes nothing: message ids are
      untouched, so every contact finds the same receipt. */
  lemma ApplyReceiptsIdempotent(data: seq<Contact>, receipts: seq<Receipt>)
    ensures ApplyReceipts(ApplyReceipts(data, receipts), receipts) == ApplyReceipts(data, receipts)
  {
    var once := ApplyReceipts(data, receipts);
    forall i | 0 <= i < |data|
      ensures Refreshed(once[i], receipts) == once[i]
    {
      assert once[i].messageId == data[i].messageId;
    }
  }

  /** When every receipt carries a message id, contacts never sent to
      (without an id) keep their status. */
  lemma UnsentUnchanged(data: seq<Contact>, receipts: seq<Receipt>, i: nat)
    requires i < |data| && data[i].messageId.None?
    requires forall k | 0 <= k < |receipts| :: receipts[k].messageid.Some?
    ensures ApplyReceipts(data, receipts)[i] == data[i]
  {
    ReceiptDecidesStatus(data, receipts, i, 0);
  }

  /** `checkStatus`, with the outcome of the receipt request (the receipts
      of its `dlrlist`, or the message of the error it threw) and the
      clock's value. */
  function RefreshStatus(s: AppState, dlr: Result<seq<Receipt>>, now: int): (r: AppState)
    ensures s.data.None? ==> r == s
    ensures s.data.Some? && dlr.Err? ==>
              r == s.(apiError := Some(StatusErrorPrefix + dlr.message))
    ensures s.data.Some? && dlr.Ok? ==>
              && r.data.Some? && |r.data.value| == |s.data.value|
              && r.lastUpdate == Some(now) && r.apiError == s.apiError
              && r.(data := s.data, lastUpdate := s.lastUpdate) == s
              && r.data == Some(ApplyReceipts(s.data.value, dlr.value))
  {
    if s.data.None? then s
    else
      match dlr
      case Err(m) => s.(apiError := Some(StatusErrorPrefix + m))
      case Ok(receipts) =>
        s.(data := Some(ApplyReceipts(s.data.value, receipts)), lastUpdate := Some(now))
  }

  /** `checkStatus` from the receipt request's reply: the errors
      `filterDLR` throws become the status banner, and a body it returns
      supplies the receipts, given as the entries of its `dlrlist`. */
  function CheckStatus(s: AppState, reply: HttpReply, receipts: seq<Receipt>, now: int): (r: AppState)
    ensures s.data.None? ==> r == s
    ensures s.data.Some? && ClassifyDlr(reply).Err? ==>
              r == s.(apiError := Some(StatusErrorPrefix + ClassifyDlr(reply).message))
    ensures s.data.Some? && ClassifyDlr(reply).Ok? ==>
              r == s.(data := Some(ApplyReceipts(s.data.value, receipts)), lastUpdate := Some(now))
  {
    match ClassifyDlr(reply)
    case Err(m) => RefreshStatus(s, Err(m), now)
    case Ok(_) => RefreshStatus(s, Ok(receipts), now)
  }

  /** A rejected receipt request never aborts anything: even the
      authentication failure only shows under the status banner, and the
      contacts are kept. */
  lemma StatusAuthFailureKeepsData(s: AppState, body: Body, receipts: seq<Receipt>, now: int)
    requires s.data.Some?
    ensures CheckStatus(s, Reply(401, body), receipts, now) ==
              s.(apiError := Some(StatusErrorPrefix + AuthMessage))
  {
    assert ClassifyDlr(Reply(401, body)) == Err(AuthMessage);
  }

  // ---------------------------------------------------------------------
  // polling
  // ---------------------------------------------------------------------

  /** The status timer runs exactly while some contact is PENDING. */
  predicate PollArmed(s: AppState) {
    s.data.Some? && exists i | 0 <= i < |s.data.value| :: s.data.value[i].status == Pending
  }

  /** A refresh whose receipts give every PENDING contact a final status
      stops the polling. */
  lemma RefreshSettlesPolling(s: AppState, receipts: seq<Receipt>, now: int)
    requires s.data.Some?
    requires forall k | 0 <= k < |receipts| :: receipts[k].status != Pending
    requires forall i | 0 <= i < |s.data.value| && s.data.value[i].status == Pending ::
               exists k | 0 <= k < |receipts| :: receipts[k].messageid == s.data.value[i].messageId
    ensures !PollArmed(RefreshStatus(s, Ok(receipts), now))
  {
    var data := s.data.value;
    var after := ApplyReceipts(data, receipts);
    forall i | 0 <= i < |data|
      ensures after[i].status != Pending
    {
      var f := FindReceipt(receipts, data[i].messageId);
      if data[i].status == Pending {
        assert f.Some?;
      }
    }
  }

  /** A refresh without receipts keeps the polling as it was. */
  lemma NoReceiptsKeepPolling(s: AppState, now: int)
    requires s.data.Some?
    ensures PollArmed(RefreshStatus(s, Ok([]), now)) == PollArmed(s)
  {
    forall i | 0 <= i < |s.data.value|
      ensures ApplyReceipts(s.data.value, [])[i] == s.data.value[i]
    {
      ReceiptDecidesStatus(s.data.value, [], i, 0);
    }
    assert ApplyReceipts(s.data.value, []) == s.data.value;
  }

  // ---------------------------------------------------------------------
  // handleCancel
  // ---------------------------------------------------------------------

  /** `handleCancel`. */
  function Cancel(s: AppState): AppState {
    s.(data := None, fileName := None, lastUpdate := None, progress := 0, successfulSends := 0,
       apiError := None, selectedOperator := None)
  }

  /** Cancelling forgets the contacts, the file, the last update, the
      counters, the banner and the chosen operator, and keeps only whether
      a send is in flight. It stops the polling, and neither a send nor a
      refresh does anything afterwards. */
  lemma CancelEndsSession(s: AppState, dlr: Result<seq<Receipt>>, now: int)
    ensures Cancel(s) == AppState(None, None, None, s.isSending, 0, 0, None, None)
    ensures Cancel(Cancel(s)) == Cancel(s)
    ensures !PollArmed(Cancel(s))
    ensures HandleSend(Cancel(s), [], now) == Cancel(s)
    ensures RefreshStatus(Cancel(s), dlr, now) == Cancel(s)
  {
  }

  // ---------------------------------------------------------------------
  // handleFileImport
  // ---------------------------------------------------------------------

  /** What the spreadsheet library reads from a workbook's first sheet: the
      zero-based index of the last row of its used range, and its cells as
      text with blank rows removed. */
  datatype Sheet = Sheet(lastRow: nat, grid: seq<seq<string>>)

  const ImportErrorPrefix := "Error importing file: "
  const NoDataRowsMessage := "No data rows found in the file"
  const UnsupportedMessage := "Unsupported file type. Please use CSV or XLSX files."
  const ReadErrorMessage := "Error reading file. Please try again."

  /** What a file yields: its contacts, or the message of the error thrown
      while reading them. The extension test is case-sensitive, and `.csv`
      is tested first. */
  function ImportContacts(name: string, content: string, workbook: Result<Sheet>): (r: Result<seq<Contact>>)
    ensures EndsWith(name, ".csv") ==> r == ParseCsv(content)
    ensures !EndsWith(name, ".csv") && !EndsWith(name, ".xlsx") ==> r == Err(UnsupportedMessage)
  {
    if EndsWith(name, ".csv") then ParseCsv(content)
    else if EndsWith(name, ".xlsx") then
      match workbook
      case Err(m) => Err(m)
      case Ok(sheet) =>
        if sheet.lastRow < 1 then Err(NoDataRowsMessage) else Ok(GridContacts(sheet.grid))
    else Err(UnsupportedMessage)
  }

  /** `handleFileImport` for a chosen file: its name, its text (`None` when
      the reader fails) and the spreadsheet library's reading of it. The
      file name is always recorded; the contacts replace the data on
      success, and the banner reports the error otherwise. */
  function ImportFile(s: AppState, name: string, content: Option<string>, workbook: Result<Sheet>): (r: AppState)
    ensures r.fileName == Some(name)
    ensures r.(fileName := s.fileName, data := s.data, apiError := s.apiError) == s
    ensures content.None? ==> r.data == s.data && r.apiError == Some(ReadErrorMessage)
  {
    var named := s.(fileName := Some(name));
    match content
    case None => named.(apiError := Some(ReadErrorMessage))
    case Some(text) =>
      match ImportContacts(name, text, workbook)
      case Ok(contacts) => named.(data := Some(contacts))
      case Err(m) => named.(apiError := Some(ImportErrorPrefix + m))
  }

  /** A CSV file's contacts replace the data and leave the banner alone; a
      CSV file with fewer than two non-blank lines leaves the data and
      reports the error. */
  lemma ImportCsvFile(s: AppState, name: string, content: string, workbook: Result<Sheet>)
    requires EndsWith(name, ".csv")
    ensures var r := ImportFile(s, name, Some(content), workbook);
            if |CsvLines(content)| >= 2 then
              r.data == Some(ParseCsv(content).value) && r.apiError == s.apiError
              && |r.data.value| == |CsvLines(content)| - 1
            else
              r.data == s.data && r.apiError == Some(ImportErrorPrefix + CsvEmptyMessage)
  {
    var parsed := ParseCsv(content);
    assert ImportContacts(name, content, workbook) == parsed;
    if |CsvLines(content)| < 2 {
      assert parsed == Err(CsvEmptyMessage);
    }
  }

  /** A spreadsheet whose used range has no second row is refused before
      its cells are read; otherwise its grid's contacts replace the data. */
  lemma ImportXlsxFile(s: AppState, name: string, content: string, sheet: Sheet)
    requires EndsWith(name, ".xlsx") && !EndsWith(name, ".csv")
    ensures var r := ImportFile(s, name, Some(content), Ok(sheet));
            if sheet.lastRow < 1 then
              r.data == s.data && r.apiError == Some(ImportErrorPrefix + NoDataRowsMessage)
            else
              r.data == Some(GridContacts(sheet.grid)) && r.apiError == s.apiError
  {
  }

  /** A file that is neither `.csv` nor `.xlsx` changes only the file name
      and the banner. */
  lemma ImportUnsupportedFile(s: AppState, name: string, content: string, workbook: Result<Sheet>)
    requires !EndsWith(name, ".csv") && !EndsWith(name, ".xlsx")
    ensures ImportFile(s, name, Some(content), workbook)
              == s.(fileName := Some(name), apiError := Some(ImportErrorPrefix + UnsupportedMessage))
  {
  }
}
