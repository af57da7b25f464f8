# email_workato — a verified model of the notification pipeline

`email_workato.py` handles one workflow card at a time. It turns the card
into an e-mail with attachments, sends the e-mail through a relay, and
writes a status line back onto the card. This project models the decision
logic of that pipeline in Dafny and proves what it promises. Every call to
the outside world is an input to the model:

- the outcome of the attachment fetch at each position (a URL listed twice is fetched twice, and the two fetches may end differently);
- the answer to the contact-record query;
- the relay's answer to the send;
- the card update's answer;
- whether the shared HTTP session exists;
- the formatted clock reading.

Modules, in pipeline order:

- `Basics`: `Option` (with `:-` support) and `Result`.
- `Text`: what the pipeline needs from Python strings.
  - `str.split` with a non-empty separator, and `join`.
  - The text after the last / before the first occurrence of a character (`split(c)[-1]`, `split(c)[0]`).
  - ASCII `lower()`.
  - Decimal rendering of positions.
  - `filter(None, ...)` on lists of strings.
- `Json`: decoded JSON values, with the parts of Python's object semantics the code depends on.
  - Truthiness.
  - Hashability: lists and dicts cannot go into a `set`.
  - `True == 1`.
  - `dict.get` and subscripting, modelled as `Option`s for the exceptions they raise.
- `Base64`: the encoding of section 4 of RFC 4648 that `base64.b64encode` computes, with a matching decoder as its partner.
- `Transport`: how `fazer_requisicao` reduces an HTTP call to "response or `None`", and what `alterar_campo_card` returns.
- `Contacts`: the comprehension in `buscar_email` over `edges`/`node`/`fields`.
- `Attachments`: `processar_anexos`.
  - An imperative loop (`ProcessAttachments`) that fills the `anexos` map.
  - The loop is proved equal to the functions `Table` and `KeyOrder`, which state its result.
  - Their properties are proved as lemmas.
- `Links`: `gerar_links_anexos`, the bordered box of download links.
- `Recipients`: `definir_destinatarios`.
  - An imperative method that extends the list and removes duplicates.
  - Its contract states the reply-to address, the membership of the list, and that the list has no duplicates and no empty values; it is also proved equal to the function `Resolve`.
- `Orchestrator`: `main`.
  - `Run` states the behaviour of `main` stage by stage, split into `AfterFetches`, `AfterQuery` and `AfterSend`.
  - `Dispatch` is the method that runs the stages with early exits and is proved equal to `Run`.
  - Requests issued are recorded as a trace of `Call`s, so lemmas can say which calls happen and in what order.

Some behaviours follow from Python's semantics and are kept:

- A contact value that is a list or a dict makes `set(...)` raise inside `definir_destinatarios`. The function's `except` then returns `("", [])`, so "Nenhum destinatário encontrado." can happen.
  - It cannot happen in any other way, because the monitoring address is always added (`Orchestrator.NoRecipientNeedsUnhashable`).
- A contact value that is a truthy number or boolean (anything but `0` or `False`) survives deduplication. `", ".join` at line 247 then raises a `TypeError` after the e-mail was already sent. The run ends as a failure with Python's message `sequence item i: expected str instance, T found`, and the status write-back is not made (`Orchestrator.TruthyNonStringFailsAfterSend`). Falsy values (`None`, `""`, `0`, `False`) are dropped by `filter(None, ...)` at line 177 and do no harm (`Orchestrator.SuccessWhenStagesPass`).
- If the session does not exist, `fazer_requisicao` returns `None` without issuing anything.
- The attachment fetch at line 134 does not go through the session.
- `raise_for_status` rejects only statuses 400–599, so a 1xx or 3xx final status is also returned as a response (`Transport.Request`).
- A failed fetch still uses up its position: `file{idx+1}` counts the non-empty URLs, not the stored attachments, so keys can be sparse (`Attachments.SparseKeys`).
- The extension is the text after the last `.` of the whole URL, query string included. A `.` in the query decides it: `….pdf?v=1.5` has extension `5`, is named `anexoN.5` and is sent as `application/octet-stream` (`Attachments.DottedQueryExample`).
- For FISCAL, `fiscal@odoscontabilidade.com.br` is the reply-to address, not a recipient; the extra recipient is `samuel@odoscontabilidade.com.br` (`Orchestrator.FiscalScenario`).

## Model

| member | source | states |
|---|---|---|
| Transport.Request | email_workato.py:37-52 | A response comes back exactly when the session exists and the call ended with a status outside 400–599; it carries that status and body; a timeout, a connection error, another request error or a rejected status all give `None` |
| Transport.FailuresCollapse | email_workato.py:46-52 | The three logged failure classes give the same absent response |
| Transport.UpdateResult | email_workato.py:73-77 | No response gives `{"error": "No response received"}`; a decoded body is returned as is; an undecodable body gives a one-key `{"error": ...}` object |
| Contacts.ContactEmails | email_workato.py:104-117 | No response, or a body that does not decode, gives `[]` |
| Contacts.OneField | email_workato.py:110-113 | A field contributes without raising exactly when it is a dict with a `field` dict that has an `id` (plus `value` when the id matches); it then contributes `[value]` if the id is `email_do_contato` and nothing otherwise |
| Contacts.FieldValuesAppend | email_workato.py:112-113 | The values of a concatenation of fields are the values of the first part followed by those of the second: fields keep their order |
| Contacts.EdgeValuesAppend | email_workato.py:111-112 | Edges keep their order in the same way |
| Contacts.RaisingFieldSpoilsAll | email_workato.py:109-117 | One field whose subscripting raises makes the whole comprehension raise |
| Contacts.RaisingEdgeSpoilsAll | email_workato.py:109-117 | One edge whose subscripting raises makes the whole comprehension raise |
| Contacts.MissingKeysGiveNothing | email_workato.py:111 | A reply without `data`, without `findRecords` or without `edges` yields no contacts |
| Contacts.ContactsOfDocument | email_workato.py:108-117 | For any decoded reply whose `data`/`findRecords`/`edges` chain ends in the list `E`, whatever other members stand beside them, the contacts are the values the edges give, or `[]` when any of them raises |
| Contacts.OneRecord | email_workato.py:109-114 | One record with a company-name field and a contact field yields exactly the contact value |
| Attachments.ProcessAttachments | email_workato.py:119-149 | The loop over the non-empty URLs builds exactly `Table(NonEmpty(urls))`, and its insertion order is `KeyOrder(NonEmpty(urls))` |
| Attachments.TableAt | email_workato.py:131-142 | Key `file{i+1}` is present exactly when the fetch of the `i`-th non-empty URL succeeded; its entry then has name `anexo{i+1}.{ext}`, the MIME type of `ext` and the base-64 content, all for the same position `i` |
| Attachments.TableKeyAt | email_workato.py:131-142 | Every key of the table is `file{i+1}` for a position `i` whose fetch succeeded |
| Attachments.TableContents | email_workato.py:131-142 | Both statements above for all positions and keys at once |
| Attachments.TableSize | email_workato.py:131-145 | The table has one entry per successful fetch, never more than there are non-empty URLs |
| Attachments.TableEmpty | email_workato.py:131-145 | The table is empty exactly when every fetch failed |
| Attachments.KeyOrderSpec | email_workato.py:138-142 | The insertion order lists exactly the table's keys, each once, one per successful fetch |
| Attachments.KeyInjective | email_workato.py:138 | Different positions get different keys |
| Attachments.EmptyUrlUsesNoIndex | email_workato.py:131 | An empty URL anywhere in the list changes neither the table nor the key order |
| Attachments.MimeType | email_workato.py:121-140 | The type is the table's entry for the extension, or `application/octet-stream` when there is none |
| Attachments.ExtensionSpec | email_workato.py:133 | The extension is the lowered text after the last `.` (a suffix of the URL free of `.`, either all of it or preceded by a `.`), cut at the first `?`; it holds no `.`, no `?` and no capital letter |
| Attachments.ExtensionAfterQueryDot | email_workato.py:133 | For any URL ending in `.d` with no `.` or `?` in `d`, the extension is `d` lowered, even when the `.` is inside the query string |
| Attachments.DottedQueryExample | email_workato.py:133-140 | `….pdf?v=1.5` has extension `5` and type `application/octet-stream` |
| Attachments.ExtensionWithQuery | email_workato.py:133 | For any URL `path.ext?query` with no `.` in the query, the extension is `ext` lowered |
| Attachments.PdfWithQueryString | email_workato.py:133-140 | `….PDF?query` has extension `pdf` and type `application/pdf` |
| Attachments.SparseOrder | email_workato.py:131-145 | With the middle of three fetches failing, the key order is `file1`, `file3` |
| Attachments.SparseKeys | email_workato.py:131-145 | In the same case, the table's keys are exactly `file1` and `file3` |
| Attachments.RepeatedUrlOrder | email_workato.py:131-145 | A URL listed twice whose first fetch fails and second succeeds lists only the second key |
| Attachments.RepeatedUrl | email_workato.py:131-145 | In that case the table's only key is `file2` |
| Base64.Encode | email_workato.py:136 | The encoding has four symbols per started group of three bytes |
| Base64.RoundTrip | email_workato.py:136 | Decoding the encoding gives back the bytes |
| Base64.EncodeAlphabet | email_workato.py:136 | The encoding uses only the 64 symbols of the alphabet and `=` |
| Base64.ShortVectors | email_workato.py:136 | `f`, `fo` and `foo` encode to the test vectors `Zg==`, `Zm8=` and `Zm9v` of section 10 of RFC 4648 |
| Base64.FoobarVector | email_workato.py:136 | `foobar` encodes to the test vector `Zm9vYmFy` of section 10 of RFC 4648 |
| Links.LinkBlock | email_workato.py:151-159 | The block is empty exactly when the URL list is empty; otherwise it is the bordered div with its heading, one link per non-empty URL in input order, and `</div>` |
| Links.AnchorsOfNonEmptyUrls | email_workato.py:155-158 | The links are one anchor per non-empty URL, in input order |
| Links.AnchorsAppend | email_workato.py:155-158 | The links of a concatenation are the links of each part, in order |
| Links.EmptyUrlsGiveBareBox | email_workato.py:152-159 | A non-empty list of only empty URLs still gives the bordered box with its heading and no link |
| Links.LinkTextSpec | email_workato.py:156 | The link text is the final `/`-segment of the URL before its first `?` and holds neither `/` nor `?` |
| Links.ExampleText | email_workato.py:156 | `https://h/docs/a.pdf?x=1` is shown as `a.pdf` |
| Recipients.DefineRecipients | email_workato.py:164-181 | A list or dict among the queried values gives `("", [])`; otherwise the reply-to is the department's (`""` for an unknown one), the list holds the monitoring address, and a string is in it exactly when it is non-empty and was queried, is an extra recipient or is the monitoring address; in every case the list holds only truthy values, no two of them equal in Python's sense |
| Recipients.ResolveSpec | email_workato.py:166-177 | For hashable contact values: the reply-to is the department's (`""` for an unknown one); the list holds the monitoring address; a string is in the list exactly when it is non-empty and was queried, is one of the department's extras, or is the monitoring address |
| Recipients.NeverEmpty | email_workato.py:175-177 | For hashable contact values the list is never empty |
| Recipients.MonitorWhenAny | email_workato.py:175-181 | A non-empty list always holds the monitoring address |
| Recipients.ResolveDistinct | email_workato.py:177 | The list holds only truthy values and no two values Python considers equal |
| Recipients.DedupeSound | email_workato.py:177 | Every kept value was in the merged list and is truthy |
| Recipients.DedupeComplete | email_workato.py:177 | Every truthy merged value is represented by an equal kept value |
| Recipients.DedupeUnique | email_workato.py:177 | No two kept values are equal |
| Recipients.MergedStrings | email_workato.py:173-175 | A string is in the merged list exactly when it was queried, is an extra, or is the monitoring address |
| Recipients.UnhashableEmptiesAll | email_workato.py:177-181 | A list or dict among the contact values makes the result `("", [])` |
| Recipients.StringRecipients | email_workato.py:177 | Contact values that are strings wherever they are truthy give a list of strings only |
| Recipients.NonStringSurvives | email_workato.py:177 | A truthy non-string among hashable contact values leaves a non-string in the list |
| Recipients.FiscalRecipients | email_workato.py:167-177 | FISCAL replies from `fiscal@…` and sends to the queried contact, `samuel@…` and the monitoring address |
| Recipients.LegalExample | email_workato.py:166-177 | `["a@x", "a@x", "", None]` for LEGAL gives a list holding `"a@x"` exactly once |
| Orchestrator.TextsFrom | email_workato.py:247 | `", ".join` succeeds exactly when every recipient is a string, and then joins exactly those strings; otherwise it fails with `sequence item i: expected str instance, T found` for the first non-string item `i` of the list, `T` being its type name |
| Orchestrator.Dispatch | email_workato.py:183-265 | The method with early exits gives exactly the outcome and the request trace of `Run` |
| Orchestrator.RejectsNonRecord | email_workato.py:185-186 | A payload that is not a dict fails with "Input inválido" and issues no request |
| Orchestrator.NoFilesIff | email_workato.py:188-190 | A record fails with "Nenhum arquivo encontrado." exactly when `anexos` is absent or only a run of `", "` separators, and then no request is issued |
| Orchestrator.FetchesComeFirst | email_workato.py:188-199 | When a URL is non-empty, the first requests are the fetches of all non-empty URLs, in order |
| Orchestrator.AllFetchesFail | email_workato.py:192-195 | When every fetch fails, the run fails with "Nenhum anexo processado." after the fetches and before the contact query |
| Orchestrator.NoRecipientNeedsUnhashable | email_workato.py:199-203 | "Nenhum destinatário encontrado." only happens for a record whose queried contact values include a list or a dict |
| Orchestrator.UnhashableContactStopsRun | email_workato.py:199-203 | Such a contact value stops the run with that message, after the query and before the send |
| Orchestrator.SendFailure | email_workato.py:235-241 | When the earlier stages pass and the relay gives no response, the run fails with "Falha ao enviar e-mail." |
| Orchestrator.TruthyNonStringFailsAfterSend | email_workato.py:235-265 | A truthy non-string contact value with an accepted send fails the run with status 500 and the `TypeError` text of a non-string recipient, after the query and the send and before any status write-back |
| Orchestrator.JoinTypeErrorStage | email_workato.py:240-257 | After an accepted send, a non-string recipient stops the run with its `TypeError` text and issues nothing further |
| Orchestrator.SendAccepted | email_workato.py:240-256 | After an accepted send, string recipients end the run in success with the relay's status |
| Orchestrator.UniformOutcome | email_workato.py:250-265 | Every run ends either with status 500, type "Erro ao enviar e-mail" and the error text, or with type "E-mail enviado com sucesso" and the relay's own accepted status code |
| Orchestrator.WritebackIgnored | email_workato.py:243-256 | The card update's answer changes neither the outcome nor the requests issued |
| Orchestrator.NoSessionNoSuccess | email_workato.py:37-41 | Without a session the run never succeeds, and the only requests it issues are attachment fetches |
| Orchestrator.RunSucceeds | email_workato.py:183-256 | A successful run had a session, stored attachments, recipients whose join succeeded, and after the fetches issued exactly the query, the send of the composed message and the status write-back |
| Orchestrator.SuccessCarriesEverything | email_workato.py:205-248 | The message sent in a successful run carries one attachment per successful fetch and is addressed to the monitoring address |
| Orchestrator.SuccessWhenStagesPass | email_workato.py:188-256 | At least one stored attachment, hashable contact values that are strings wherever they are truthy, and an accepted send are enough for success with the relay's status; the summary lists one key per stored attachment |
| Orchestrator.FiscalScenario | email_workato.py:183-256 | `a, , b` for FISCAL with both fetches stored and one contact `c`: success with keys `file1`, `file2`, reply-to `fiscal@…`, and recipients including `c`, `samuel@…` and the monitoring address |
| Text.SplitJoin | email_workato.py:188 | Joining the pieces of `split(sep)` with `sep` gives back the string |
| Text.SplitAllEmpty | email_workato.py:188-189 | `split(", ")` yields only empty pieces exactly when the string is a run of separators |

## Left out

- The session and retry configuration (email_workato.py:18-35) is not modelled. Pooling, backoff and retry-on-status belong to urllib3; `Env.session` says only whether the session was created.
- The HTTP calls (lines 43, 134, 235 and the two inside the query helpers) are not modelled. Neither are timeouts or TLS. Each call is an input that gives its final outcome.
- Token loading (`load_dotenv`, `os.getenv`), logging and the hardcoded SMTP settings (lines 205-210) are left out. They are configuration and I/O that does not affect the outcome.
- The GraphQL query and mutation texts (lines 62-72, 87-103) are left out. The trace records only the company name and the card fields they carry. Quotes in those values are not escaped in the source; that is not modelled.
- The HTML template (lines 214-228) is left out. The `Email` record holds the values the template is built from (reply-to, request type, body) instead of the markup.
- The wall clock (line 243) is left out. The formatted UTC-3 timestamp is the input `Env.now`.
- The sample payload and the `__main__` entry point (lines 268-278) are left out. They only run the pipeline once.
- Recipients.Resolve: the list follows first occurrence, whereas the order of Python's `set` is unspecified. The lemmas about it state membership, uniqueness and truthiness only.
- Orchestrator.JoinTypeError: the position `i` in the `TypeError` text is that of the first non-string in the model's list order. Python's set order, which decides it in the source, is unspecified.
- Recipients.Resolve: covers a list of queried values only. The non-list branch of line 173 cannot be reached from `main`, because `buscar_email` always returns a list.
- Json.Json: JSON numbers are integers. Floats, and equalities such as `1.0 == 1`, are not modelled.
- Text.Lower: lowers ASCII letters only. Python's `lower()` also folds non-ASCII letters, for example in an extension such as `PDFÉ`.
- Orchestrator.Input: a field is either a string or absent. A field present with a non-string value is not modelled; for example, `"anexos": null` makes `split` raise, and a `None` body is rendered as `"None"`.
- Attachments.ProcessAttachments: an exception while processing one URL is the single outcome `FetchRaised`. The kinds of exception are not told apart; the source treats them alike.
- Attachments.Attachment: the `anexos` dict's own order inside the relay payload is not kept, because a Dafny `map` has no order. The order that `list(anexos.keys())` prints is kept separately as `KeyOrder`.
- Base64.Decode: nothing in the source decodes. The decoder is there only to state what `Encode` preserves.
