/** `main`: one pass through the stages, from the card payload to the
    uniform `{status_code, message}` result. Every outward call is an input
    (`Env`); the calls the run issues are returned as a trace. */
module Orchestrator {
  import opened Basics
  import opened Text
  import opened Json
  import opened Transport
  import opened Attachments
  import opened Links
  import opened Contacts
  import opened Recipients

  /** The card payload. `NotARecord` is anything that is not a dict; a field
      is `None` when the key is absent. */
  datatype Input =
    | NotARecord
    | Record(cardId: Option<string>, requestType: Option<string>, body: Option<string>,
             subject: Option<string>, company: Option<string>, department: Option<string>,
             attachments: Option<string>)

  /** The world the run talks to: whether the shared session exists, what
      the fetch at each position gives, and how the record query, the relay
      and the card update answer. `now` is the UTC-3 timestamp, already
      formatted. */
  datatype Env = Env(session: bool, fetch: Fetcher, findRecords: Reply,
                     send: Reply, update: Reply, now: string)

  /** The part of the relay payload the pipeline computes (the SMTP settings
      and the HTML template are constants around it). */
  datatype Email = Email(replyTo: string, recipients: seq<Json>, subject: string,
                         requestType: string, altBody: string, attachments: map<string, Attachment>)

  /** A request the run attempts, in the order it attempts them (a fetch of
      a URL without a scheme raises before anything is sent). */
  datatype Call =
    | Fetch(url: string)
    | FindRecords(company: Option<string>)
    | SendEmail(email: Email)
    | UpdateCardField(cardId: Option<string>, fieldId: string, value: string)

  /** `{"status_code": ..., "message": {"type": ..., "message_text": ...}}`. */
  datatype Outcome = Outcome(statusCode: int, kind: string, text: string)

  const SuccessKind: string := "E-mail enviado com sucesso"
  const FailureKind: string := "Erro ao enviar e-mail"
  const InvalidInput: string := "Input inv\U{00E1}lido"
  const NoFiles: string := "Nenhum arquivo encontrado."
  const NoAttachment: string := "Nenhum anexo processado."
  const NoRecipient: string := "Nenhum destinat\U{00E1}rio encontrado."
  const SendFailed: string := "Falha ao enviar e-mail."
  const StatusField: string := "informa_es_do_email"

  /** What the `except` branch of `main` returns for an exception. */
  function Failed(message: string): Outcome
  {
    Outcome(500, FailureKind, message)
  }

  /** The text of the TypeError `str.join` raises at item `i`. */
  function JoinTypeError(i: nat, item: Json): (r: string)
    ensures |r| > 0 && r[0] == 's'
  {
    "sequence item " + Decimal(i) + ": expected str instance, " + TypeName(item) + " found"
  }

  /** The strings of a list, or the TypeError for its first non-string
      item (`start` is the position of `items[0]` in the whole list). */
  function TextsFrom(items: seq<Json>, start: nat): (r: Result<seq<string>>)
    ensures r.Ok? <==> forall i :: 0 <= i < |items| ==> items[i].JStr?
    ensures r.Ok? ==> |r.value| == |items| && forall i :: 0 <= i < |items| ==> items[i] == JStr(r.value[i])
    ensures r.Err? ==> |r.message| > 0 && r.message[0] == 's'
    ensures r.Err? ==> exists i :: (0 <= i < |items| && !items[i].JStr?
      && (forall j :: 0 <= j < i ==> items[j].JStr?)
      && r.message == JoinTypeError(start + i, items[i]))
  {
    if items == [] then Ok([])
    else if !items[0].JStr? then Err(JoinTypeError(start, items[0]))
    else
      match TextsFrom(items[1..], start + 1)
      case Err(m) => Err(m)
      case Ok(rest) => Ok([items[0].s] + rest)
  }

  /** `", ".join(items)`. */
  function JoinRecipients(items: seq<Json>): Result<string>
  {
    match TextsFrom(items, 0)
    case Err(m) => Err(m)
    case Ok(texts) => Ok(Join(texts, ", "))
  }

  /** `str(list(keys))` for keys without quotes or backslashes. */
  function KeysRepr(keys: seq<string>): string
  {
    "[" + Join(seq(|keys|, i requires 0 <= i < |keys| => "'" + keys[i] + "'"), ", ") + "]"
  }

  /** The status written back onto the card. */
  function WritebackText(names: string, now: string): string
  {
    "\U{1F4E7} Email enviado com sucesso para os destinat\U{00E1}rios: " + names + ". \U{23F0} Enviado em: " + now
  }

  /** A request made through `fazer_requisicao` is only issued when the session exists. */
  function Issued(session: bool, call: Call): seq<Call>
  {
    if session then [call] else []
  }

  function FetchCalls(urls: seq<string>): (r: seq<Call>)
    ensures |r| == |urls| && forall i :: 0 <= i < |urls| ==> r[i] == Fetch(urls[i])
  {
    seq(|urls|, i requires 0 <= i < |urls| => Fetch(urls[i]))
  }

  /** The URLs the `anexos` field names. */
  function FileUrls(input: Input): seq<string>
    requires input.Record?
  {
    Split(input.attachments.GetOr(""), ", ")
  }

  /** The non-empty attachment URLs, in order. */
  function Urls(input: Input): seq<string>
    requires input.Record?
  {
    NonEmpty(FileUrls(input))
  }

  /** `anexos`: the attachments that were fetched. */
  function Attached(input: Input, env: Env): map<string, Attachment>
    requires input.Record?
  {
    Table(Urls(input), env.fetch)
  }

  /** The plain-text body: the card's text, a space, the links box. */
  function Corpo(input: Input): string
    requires input.Record?
  {
    input.body.GetOr("") + " " + LinkBlock(FileUrls(input))
  }

  /** The reply-to address and the recipients for the queried contacts. */
  function Addressees(input: Input, env: Env): (string, seq<Json>)
    requires input.Record?
  {
    Resolve(input.department, ContactEmails(Request(env.session, env.findRecords)))
  }

  /** The message handed to the relay. */
  function Composed(input: Input, env: Env): Email
    requires input.Record?
  {
    var addressees := Addressees(input, env);
    Email(addressees.0, addressees.1, input.subject.GetOr(""), input.requestType.GetOr(""),
          Corpo(input), Attached(input, env))
  }

  /** The result of `main(input)` and the requests it issues. */
  function Run(input: Input, env: Env): (Outcome, seq<Call>)
  {
    if input.NotARecord? then (Failed(InvalidInput), [])
    else if AllEmpty(FileUrls(input)) then (Failed(NoFiles), [])
    else AfterFetches(input, env, FetchCalls(Urls(input)))
  }

  /** The stages after the attachment fetches; `issued` holds the requests
      made so far. */
  function AfterFetches(input: Input, env: Env, issued: seq<Call>): (Outcome, seq<Call>)
    requires input.Record?
  {
    if Attached(input, env) == map[] then (Failed(NoAttachment), issued)
    else AfterQuery(input, env, issued + Issued(env.session, FindRecords(input.company)))
  }

  /** The stages after the contact query. */
  function AfterQuery(input: Input, env: Env, issued: seq<Call>): (Outcome, seq<Call>)
    requires input.Record?
  {
    if Addressees(input, env).1 == [] then (Failed(NoRecipient), issued)
    else AfterSend(input, env, issued + Issued(env.session, SendEmail(Composed(input, env))))
  }

  /** The stages after the relay call: the status write-back and the report. */
  function AfterSend(input: Input, env: Env, issued: seq<Call>): (Outcome, seq<Call>)
    requires input.Record?
  {
    var resp := Request(env.session, env.send);
    if resp.None? then (Failed(SendFailed), issued)
    else
      match JoinRecipients(Addressees(input, env).1)
      case Err(m) => (Failed(m), issued)
      case Ok(names) =>
        (Outcome(resp.value.status, SuccessKind,
                 "E-mail enviado para: " + names + " com os anexos: " + KeysRepr(KeyOrder(Urls(input), env.fetch))),
         issued + Issued(env.session, UpdateCardField(input.cardId, StatusField, WritebackText(names, env.now))))
  }

  /** `main(input)`: validates the payload, processes the attachments,
      builds the body, resolves the recipients, sends, and writes the status
      back; any failure becomes a status-500 outcome. */
  method Dispatch(input: Input, env: Env) returns (outcome: Outcome, trace: seq<Call>)
    ensures (outcome, trace) == Run(input, env)
  {
    if input.NotARecord? {
      return Failed(InvalidInput), [];
    }
    var fileUrls := Split(input.attachments.GetOr(""), ", ");
    if AllEmpty(fileUrls) {
      return Failed(NoFiles), [];
    }
    trace := FetchCalls(NonEmpty(fileUrls));
    var anexos, order := ProcessAttachments(fileUrls, env.fetch);
    if anexos == map[] {
      return Failed(NoAttachment), trace;
    }
    var corpo := input.body.GetOr("") + " " + LinkBlock(fileUrls);
    trace := trace + Issued(env.session, FindRecords(input.company));
    assert Run(input, env) == AfterQuery(input, env, trace);
    var emails := ContactEmails(Request(env.session, env.findRecords));
    var reply, recipients := DefineRecipients(input.department, emails);
    if recipients == [] {
      return Failed(NoRecipient), trace;
    }
    var email := Email(reply, recipients, input.subject.GetOr(""), input.requestType.GetOr(""), corpo, anexos);
    assert email == Composed(input, env);
    trace := trace + Issued(env.session, SendEmail(email));
    assert Run(input, env) == AfterSend(input, env, trace);
    var resp := Request(env.session, env.send);
    if resp.None? {
      return Failed(SendFailed), trace;
    }
    var names := JoinRecipients(recipients);
    if names.Err? {
      return Failed(names.message), trace;
    }
    trace := trace + Issued(env.session, UpdateCardField(input.cardId, StatusField, WritebackText(names.value, env.now)));
    outcome := Outcome(resp.value.status, SuccessKind,
                       "E-mail enviado para: " + names.value + " com os anexos: " + KeysRepr(order));
  }

  // ---------------------------------------------------------------------
  // Lemmas
  // ---------------------------------------------------------------------

  /** The uniform result shape: the status-500 failure, or success with the
      relay's own accepted status code. */
  predicate Uniform(r: Outcome, env: Env)
  {
    r == Failed(r.text)
    || (r.kind == SuccessKind && Request(env.session, env.send).Some?
        && r.statusCode == env.send.status && !IsHttpError(r.statusCode))
  }

  /** `trace` begins with the requests in `issued`. */
  predicate Extends(trace: seq<Call>, issued: seq<Call>)
  {
    |trace| >= |issued| && trace[..|issued|] == issued
  }

  /** The texts a run can stop with once the attachments were fetched. */
  predicate LateMessage(text: string)
  {
    text == NoAttachment || text == NoRecipient || text == SendFailed || (|text| > 0 && text[0] == 's')
  }

  /** The two outcome types are different texts. */
  lemma KindsDiffer()
    ensures SuccessKind != FailureKind
  {
    assert SuccessKind[1] != FailureKind[1];
  }

  /** The stop messages are pairwise different and only the TypeError
      texts start with 's'. */
  lemma MessagesDiffer()
    ensures !LateMessage(NoFiles) && !LateMessage(InvalidInput)
    ensures NoAttachment != NoRecipient && SendFailed != NoRecipient && NoRecipient[0] != 's'
  {
    assert NoFiles[8] != NoAttachment[8] && NoFiles[7] != NoRecipient[7] && NoFiles[0] != SendFailed[0];
    assert InvalidInput[0] !in {NoAttachment[0], 's', SendFailed[0]};
    assert NoAttachment[7] != NoRecipient[7] && SendFailed[0] != NoRecipient[0];
  }

  /** The last stage only appends to the requests already issued, and ends
      in "failed to send", a TypeError text, or success. */
  lemma SendStage(input: Input, env: Env, issued: seq<Call>)
    requires input.Record?
    ensures var r := AfterSend(input, env, issued);
      Extends(r.1, issued) && Uniform(r.0, env)
      && (r.0.kind == SuccessKind || r.0.text == SendFailed || (|r.0.text| > 0 && r.0.text[0] == 's'))
  {
  }

  lemma QueryStage(input: Input, env: Env, issued: seq<Call>)
    requires input.Record?
    ensures var r := AfterQuery(input, env, issued);
      Extends(r.1, issued) && Uniform(r.0, env) && (r.0.kind == SuccessKind || LateMessage(r.0.text))
  {
    if Addressees(input, env).1 != [] {
      var next := issued + Issued(env.session, SendEmail(Composed(input, env)));
      SendStage(input, env, next);
      assert next[..|issued|] == issued;
    }
  }

  lemma FetchesStage(input: Input, env: Env, issued: seq<Call>)
    requires input.Record?
    ensures var r := AfterFetches(input, env, issued);
      Extends(r.1, issued) && Uniform(r.0, env) && (r.0.kind == SuccessKind || LateMessage(r.0.text))
  {
    if Attached(input, env) != map[] {
      var next := issued + Issued(env.session, FindRecords(input.company));
      QueryStage(input, env, next);
      assert next[..|issued|] == issued;
    }
  }

  /** Anything but a dict fails at once, before any request. */
  lemma RejectsNonRecord(env: Env)
    ensures Run(NotARecord, env) == (Failed(InvalidInput), [])
  {
  }

  /** With a record, the run stops with "no files" (and issues nothing)
      exactly when `anexos` is absent or only a run of `", "` separators. */
  lemma NoFilesIff(input: Input, env: Env)
    requires input.Record?
    ensures Run(input, env).0 == Failed(NoFiles) <==>
      exists k: nat :: input.attachments.GetOr("") == Repeat(", ", k)
    ensures Run(input, env).0 == Failed(NoFiles) ==> Run(input, env).1 == []
  {
    SplitAllEmpty(input.attachments.GetOr(""), ", ");
    MessagesDiffer();
    KindsDiffer();
    if !AllEmpty(FileUrls(input)) {
      FetchesStage(input, env, FetchCalls(Urls(input)));
    }
  }

  /** Every run ends either in success, with the relay's own status code, or
      in the uniform failure: status 500, the error type, the message. */
  lemma UniformOutcome(input: Input, env: Env)
    ensures Uniform(Run(input, env).0, env)
  {
    if input.Record? && !AllEmpty(FileUrls(input)) {
      FetchesStage(input, env, FetchCalls(Urls(input)));
    }
  }

  /** When some URL is non-empty, the first requests are the fetches of
      all non-empty URLs, in order. */
  lemma FetchesComeFirst(input: Input, env: Env)
    requires input.Record? && !AllEmpty(FileUrls(input))
    ensures Urls(input) != [] && Extends(Run(input, env).1, FetchCalls(Urls(input)))
  {
    NonEmptyNil(FileUrls(input));
    FetchesStage(input, env, FetchCalls(Urls(input)));
  }

  /** When every fetch fails the run stops with "no attachment processed"
      before the contact query. */
  lemma AllFetchesFail(input: Input, env: Env)
    requires input.Record? && !AllEmpty(FileUrls(input))
    requires forall i :: 0 <= i < |Urls(input)| ==> !Stored(env.fetch(i, Urls(input)[i]))
    ensures Run(input, env) == (Failed(NoAttachment), FetchCalls(Urls(input)))
  {
    TableEmpty(Urls(input), env.fetch);
  }

  /** "No recipient" can only come from a list or dict among the queried
      contact values: otherwise the monitoring address is always there. */
  lemma NoRecipientNeedsUnhashable(input: Input, env: Env)
    requires Run(input, env).0 == Failed(NoRecipient)
    ensures input.Record?
    ensures var emails := ContactEmails(Request(env.session, env.findRecords));
      exists k :: 0 <= k < |emails| && !Hashable(emails[k])
  {
    MessagesDiffer();
    var emails := ContactEmails(Request(env.session, env.findRecords));
    if input.Record? && !AllEmpty(FileUrls(input)) && Attached(input, env) != map[]
       && forall k :: 0 <= k < |emails| ==> Hashable(emails[k]) {
      NeverEmpty(input.department, emails);
      var issued := FetchCalls(Urls(input)) + Issued(env.session, FindRecords(input.company));
      SendStage(input, env, issued + Issued(env.session, SendEmail(Composed(input, env))));
    }
  }

  /** A list or dict among the contact values makes `set` raise inside
      `definir_destinatarios`, and the run stops before the send. */
  lemma UnhashableContactStopsRun(input: Input, env: Env, k: nat)
    requires input.Record? && !AllEmpty(FileUrls(input)) && Attached(input, env) != map[]
    requires var emails := ContactEmails(Request(env.session, env.findRecords));
      k < |emails| && !Hashable(emails[k])
    ensures Run(input, env) == (Failed(NoRecipient),
      FetchCalls(Urls(input)) + Issued(env.session, FindRecords(input.company)))
  {
    UnhashableEmptiesAll(input.department, ContactEmails(Request(env.session, env.findRecords)), k);
  }

  /** A relay call that never answers acceptably fails the run with
      "failed to send", once the earlier stages have passed. */
  lemma SendFailure(input: Input, env: Env)
    requires input.Record? && !AllEmpty(FileUrls(input)) && Attached(input, env) != map[]
    requires var emails := ContactEmails(Request(env.session, env.findRecords));
      forall k :: 0 <= k < |emails| ==> Hashable(emails[k])
    requires Request(env.session, env.send).None?
    ensures Run(input, env).0 == Failed(SendFailed)
  {
    NeverEmpty(input.department, ContactEmails(Request(env.session, env.findRecords)));
  }

  /** A truthy contact value that is not a string (a number other than `0`,
      `True`) passes deduplication, so the run fails with the TypeError of
      `", ".join` after the e-mail was sent and before the status
      write-back. */
  lemma TruthyNonStringFailsAfterSend(input: Input, env: Env, k: nat)
    requires input.Record? && !AllEmpty(FileUrls(input)) && Attached(input, env) != map[]
    requires var emails := ContactEmails(Request(env.session, env.findRecords));
      (forall j :: 0 <= j < |emails| ==> Hashable(emails[j]))
      && k < |emails| && Truthy(emails[k]) && !emails[k].JStr?
    requires Request(env.session, env.send).Some?
    ensures Run(input, env).0.statusCode == 500 && Run(input, env).0.kind == FailureKind
    ensures var to := Addressees(input, env).1;
      exists i :: 0 <= i < |to| && !to[i].JStr? && Run(input, env).0.text == JoinTypeError(i, to[i])
    ensures Run(input, env).1 ==
      FetchCalls(Urls(input)) + [FindRecords(input.company)] + [SendEmail(Composed(input, env))]
  {
    var emails := ContactEmails(Request(env.session, env.findRecords));
    NonStringSurvives(input.department, emails, k);
    NeverEmpty(input.department, emails);
    var issued := FetchCalls(Urls(input)) + [FindRecords(input.company)];
    assert Run(input, env) == AfterQuery(input, env, issued);
    JoinTypeErrorStage(input, env, issued + [SendEmail(Composed(input, env))]);
  }

  /** An accepted send whose recipients do not all join stops with the
      TypeError of a non-string recipient, issuing nothing further. */
  lemma JoinTypeErrorStage(input: Input, env: Env, issued: seq<Call>)
    requires input.Record? && Request(env.session, env.send).Some?
    requires var to := Addressees(input, env).1; exists i :: 0 <= i < |to| && !to[i].JStr?
    ensures var to := Addressees(input, env).1;
      exists i :: 0 <= i < |to| && !to[i].JStr? && AfterSend(input, env, issued) == (Failed(JoinTypeError(i, to[i])), issued)
  {
  }

  /** The card update's answer changes nothing in the outcome or in the requests. */
  lemma WritebackIgnored(input: Input, env: Env, answer: Reply)
    ensures Run(input, env.(update := answer)) == Run(input, env)
  {
    if input.Record? && !AllEmpty(FileUrls(input)) {
      var env' := env.(update := answer);
      var issued := FetchCalls(Urls(input));
      if Attached(input, env) != map[] {
        var next := issued + Issued(env.session, FindRecords(input.company));
        assert Addressees(input, env') == Addressees(input, env);
        if Addressees(input, env).1 != [] {
          assert Composed(input, env') == Composed(input, env);
          var last := next + Issued(env.session, SendEmail(Composed(input, env)));
          assert AfterSend(input, env', last) == AfterSend(input, env, last);
        }
        assert AfterQuery(input, env', next) == AfterQuery(input, env, next);
      }
      assert AfterFetches(input, env', issued) == AfterFetches(input, env, issued);
    }
  }

  /** Without a session the query finds nobody but the fixed addresses and
      the send fails, issuing nothing further. */
  lemma NoSessionQuery(input: Input, env: Env, issued: seq<Call>)
    requires input.Record? && !env.session
    ensures AfterQuery(input, env, issued) == (Failed(SendFailed), issued)
  {
    NeverEmpty(input.department, []);
    assert issued + [] == issued;
  }

  /** Without a session, no request but the attachment fetches is issued and
      the run cannot succeed. */
  lemma NoSessionNoSuccess(input: Input, env: Env)
    requires !env.session
    ensures Run(input, env).0.kind == FailureKind
    ensures forall i :: 0 <= i < |Run(input, env).1| ==> Run(input, env).1[i].Fetch?
  {
    if input.Record? && !AllEmpty(FileUrls(input)) {
      var issued := FetchCalls(Urls(input));
      if Attached(input, env) != map[] {
        assert issued + Issued(env.session, FindRecords(input.company)) == issued;
        NoSessionQuery(input, env, issued);
      }
    }
  }

  /** A successful last stage had a session, an accepted send and string
      recipients, and added exactly the status write-back. */
  lemma SendSucceeds(input: Input, env: Env, issued: seq<Call>)
    requires input.Record? && AfterSend(input, env, issued).0.kind == SuccessKind
    ensures env.session && Request(env.session, env.send).Some? && JoinRecipients(Addressees(input, env).1).Ok?
    ensures AfterSend(input, env, issued).1 ==
      issued + [UpdateCardField(input.cardId, StatusField, WritebackText(JoinRecipients(Addressees(input, env).1).value, env.now))]
  {
    KindsDiffer();
  }

  /** A successful run passed every stage and issued, after the fetches,
      exactly the query, the send of the composed message and the write-back. */
  lemma RunSucceeds(input: Input, env: Env)
    requires Run(input, env).0.kind == SuccessKind
    ensures input.Record? && env.session && !AllEmpty(FileUrls(input))
    ensures Attached(input, env) != map[] && Addressees(input, env).1 != []
    ensures JoinRecipients(Addressees(input, env).1).Ok?
    ensures Run(input, env).1 == FetchCalls(Urls(input)) + [FindRecords(input.company)]
      + [SendEmail(Composed(input, env))]
      + [UpdateCardField(input.cardId, StatusField, WritebackText(JoinRecipients(Addressees(input, env).1).value, env.now))]
  {
    KindsDiffer();
    if input.Record? && !AllEmpty(FileUrls(input)) && Attached(input, env) != map[] {
      var next := FetchCalls(Urls(input)) + Issued(env.session, FindRecords(input.company));
      if Addressees(input, env).1 != [] {
        SendSucceeds(input, env, next + Issued(env.session, SendEmail(Composed(input, env))));
      }
    }
  }

  /** A successful run sent one message, carrying one attachment per
      successful fetch and naming the monitoring address, between the
      contact query and the status write-back. */
  lemma SuccessCarriesEverything(input: Input, env: Env)
    requires Run(input, env).0.kind == SuccessKind
    ensures input.Record? && env.session
    ensures |Run(input, env).1| == |Urls(input)| + 3
      && Run(input, env).1[|Urls(input)| + 1] == SendEmail(Composed(input, env))
    ensures |Composed(input, env).attachments| == CountStored(Urls(input), env.fetch)
    ensures JStr(Monitor) in Composed(input, env).recipients
  {
    RunSucceeds(input, env);
    TableSize(Urls(input), env.fetch);
    MonitorWhenAny(input.department, ContactEmails(Request(env.session, env.findRecords)));
  }

  /** Passing every stage is enough for success: with at least one stored
      attachment, hashable contact values that are strings wherever they
      are truthy (`None`, `0`, `False` and `""` are filtered out) and an
      accepted send, the run succeeds with the relay's status and lists one
      key per stored fetch. */
  lemma SuccessWhenStagesPass(input: Input, env: Env)
    requires input.Record? && !AllEmpty(FileUrls(input)) && Attached(input, env) != map[]
    requires var emails := ContactEmails(Request(env.session, env.findRecords));
      forall k :: 0 <= k < |emails| ==> Hashable(emails[k]) && (Truthy(emails[k]) ==> emails[k].JStr?)
    requires Request(env.session, env.send).Some?
    ensures Run(input, env).0.kind == SuccessKind && Run(input, env).0.statusCode == env.send.status
    ensures |KeyOrder(Urls(input), env.fetch)| == |Attached(input, env)|
  {
    var emails := ContactEmails(Request(env.session, env.findRecords));
    NeverEmpty(input.department, emails);
    StringRecipients(input.department, emails);
    var issued := FetchCalls(Urls(input)) + [FindRecords(input.company)];
    assert Run(input, env) == AfterQuery(input, env, issued);
    SendAccepted(input, env, issued + [SendEmail(Composed(input, env))]);
    KeyOrderSpec(Urls(input), env.fetch);
    TableSize(Urls(input), env.fetch);
  }

  /** An accepted send to string recipients ends the run in success with
      the relay's status. */
  lemma SendAccepted(input: Input, env: Env, issued: seq<Call>)
    requires input.Record? && Request(env.session, env.send).Some?
    requires var to := Addressees(input, env).1; forall i :: 0 <= i < |to| ==> to[i].JStr?
    ensures AfterSend(input, env, issued).0.kind == SuccessKind
    ensures AfterSend(input, env, issued).0.statusCode == env.send.status
  {
  }

  lemma GapUrls(input: Input, a: string, b: string)
    requires a != "" && b != "" && ',' !in a && ',' !in b
    requires input.Record? && input.attachments == Some(a + ", , " + b)
    ensures FileUrls(input) == [a, "", b] && !AllEmpty(FileUrls(input)) && Urls(input) == [a, b]
  {
    SplitGap(a, b);
    NonEmptyGap(a, b);
  }

  lemma TwoStored(a: string, b: string, fetch: Fetcher)
    requires Stored(fetch(0, a)) && Stored(fetch(1, b))
    ensures KeyOrder([a, b], fetch) == [Key(0), Key(1)] && Table([a, b], fetch) != map[]
  {
    assert [] + [a] == [a] && [a] + [b] == [a, b];
    KeyOrderSnoc([], a, fetch);
    KeyOrderSnoc([a], b, fetch);
    TableAt([a, b], fetch, 0);
  }

  /** The worked case: `a, , b` for the FISCAL department, both fetches
      stored and one queried contact `c`: the run succeeds, lists `file1`
      and `file2`, replies to the FISCAL address and sends to `c`, the
      department's extra recipient and the monitoring address. */
  lemma FiscalScenario(input: Input, env: Env, a: string, b: string, c: string)
    requires a != "" && b != "" && ',' !in a && ',' !in b && c != ""
    requires input.Record? && input.attachments == Some(a + ", , " + b) && input.department == Some("FISCAL")
    requires Stored(env.fetch(0, a)) && Stored(env.fetch(1, b))
    requires ContactEmails(Request(env.session, env.findRecords)) == [JStr(c)]
    requires Request(env.session, env.send).Some?
    ensures Run(input, env).0.kind == SuccessKind && Run(input, env).0.statusCode == env.send.status
    ensures KeyOrder(Urls(input), env.fetch) == [Key(0), Key(1)]
    ensures Composed(input, env).replyTo == "fiscal@odoscontabilidade.com.br"
    ensures var to := Composed(input, env).recipients;
      JStr(c) in to && JStr("samuel@odoscontabilidade.com.br") in to && JStr(Monitor) in to
  {
    GapUrls(input, a, b);
    TwoStored(a, b, env.fetch);
    SuccessWhenStagesPass(input, env);
    FiscalRecipients(c);
  }
}
