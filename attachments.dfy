/** `processar_anexos`: fetching the attachment URLs and building the table
    of attachments the relay receives, keyed `file1`, `file2`, ... */
module Attachments {
  import opened Text
  import opened Transport
  import Base64

  /** What `requests.get(url)` ends with: an exception (timeout, connection
      failure, malformed URL) or a response with its raw bytes. */
  datatype FetchOutcome = FetchRaised(error: string) | Fetched(status: int, content: seq<Base64.Byte>)

  /** What the fetch at each position of the non-empty URLs ends with. It is
      keyed by position as well as by URL: a URL listed twice is fetched
      twice, and the two fetches may end differently. */
  type Fetcher = (nat, string) -> FetchOutcome

  datatype Attachment = Attachment(name: string, mime: string, content: string)

  /** A fetch whose bytes end up in the table: one that answered with a
      status `raise_for_status` accepts. */
  predicate Stored(o: FetchOutcome)
  {
    o.Fetched? && !IsHttpError(o.status)
  }

  const MimeTypes: map<string, string> := map[
    "pdf" := "application/pdf",
    "xls" := "application/vnd.ms-excel",
    "xlsx" := "application/vnd.openxmlformats-officedocument.spreadsheetml.sheet",
    "doc" := "application/msword",
    "docx" := "application/vnd.openxmlformats-officedocument.wordprocessingml.document",
    "zip" := "application/zip"
  ]

  const DefaultMime: string := "application/octet-stream"

  /** The extension of a URL: after the last `.`, cut at the first `?`, lowered. */
  function Extension(url: string): string
  {
    Lower(BeforeFirst(AfterLast(url, '.'), '?'))
  }

  function MimeType(ext: string): (r: string)
    ensures ext in MimeTypes ==> r == MimeTypes[ext]
    ensures ext !in MimeTypes ==> r == DefaultMime
  {
    if ext in MimeTypes then MimeTypes[ext] else DefaultMime
  }

  /** The key of the attachment at position `i` of the non-empty URLs. */
  function Key(i: nat): string
  {
    "file" + Decimal(i + 1)
  }

  /** The file name of the attachment at position `i`. */
  function Name(i: nat, ext: string): string
  {
    "anexo" + Decimal(i + 1) + "." + ext
  }

  /** The entry for the URL at position `i`, whose fetch gave `content`. */
  function Entry(i: nat, url: string, content: seq<Base64.Byte>): Attachment
  {
    Attachment(Name(i, Extension(url)), MimeType(Extension(url)), Base64.Encode(content))
  }

  /** The table after the loop has handled every URL of `urls`. */
  function Table(urls: seq<string>, fetch: Fetcher): map<string, Attachment>
    decreases |urls|
  {
    if urls == [] then map[]
    else
      var i := |urls| - 1;
      var prev := Table(urls[..i], fetch);
      var o := fetch(i, urls[i]);
      if Stored(o) then prev[Key(i) := Entry(i, urls[i], o.content)] else prev
  }

  /** The keys of `Table(urls, fetch)` in the order they were inserted
      (the order `list(anexos.keys())` lists them in). */
  function KeyOrder(urls: seq<string>, fetch: Fetcher): seq<string>
    decreases |urls|
  {
    if urls == [] then []
    else
      var i := |urls| - 1;
      KeyOrder(urls[..i], fetch) + (if Stored(fetch(i, urls[i])) then [Key(i)] else [])
  }

  /** How many of the fetches succeed. */
  function CountStored(urls: seq<string>, fetch: Fetcher): nat
    decreases |urls|
  {
    if urls == [] then 0
    else
      var i := |urls| - 1;
      CountStored(urls[..i], fetch) + (if Stored(fetch(i, urls[i])) then 1 else 0)
  }

  /** `processar_anexos(file_urls)`: enumerates the non-empty URLs, fetches
      each, and files every successful one under the key of its position.
      Besides the table it returns the table's keys in insertion order. */
  method ProcessAttachments(fileUrls: seq<string>, fetch: Fetcher)
    returns (anexos: map<string, Attachment>, order: seq<string>)
    ensures anexos == Table(NonEmpty(fileUrls), fetch)
    ensures order == KeyOrder(NonEmpty(fileUrls), fetch)
  {
    var urls := NonEmpty(fileUrls);
    anexos, order := map[], [];
    var idx := 0;
    while idx < |urls|
      invariant 0 <= idx <= |urls|
      invariant anexos == Table(urls[..idx], fetch)
      invariant order == KeyOrder(urls[..idx], fetch)
    {
      var url := urls[idx];
      var extensao := Extension(url);
      var response := fetch(idx, url);
      if Stored(response) {
        var content := Base64.Encode(response.content);
        anexos := anexos[Key(idx) := Attachment(Name(idx, extensao), MimeType(extensao), content)];
        order := order + [Key(idx)];
      }
      assert urls[..idx + 1][..idx] == urls[..idx];
      idx := idx + 1;
    }
    assert urls[..idx] == urls;
  }

  // ---------------------------------------------------------------------
  // Lemmas
  // ---------------------------------------------------------------------

  /** Different positions have different keys. */
  lemma KeyInjective(i: nat, j: nat)
    requires Key(i) == Key(j)
    ensures i == j
  {
    assert Key(i)[4..] == Decimal(i + 1);
    assert Key(j)[4..] == Decimal(j + 1);
    DecimalInjective(i + 1, j + 1);
  }

  lemma {:induction false} TableAt(urls: seq<string>, fetch: Fetcher, i: nat)
    requires i < |urls|
    ensures Key(i) in Table(urls, fetch) <==> Stored(fetch(i, urls[i]))
    ensures Stored(fetch(i, urls[i])) ==> Table(urls, fetch)[Key(i)] == Entry(i, urls[i], fetch(i, urls[i]).content)
    decreases |urls|
  {
    var n := |urls| - 1;
    var init := urls[..n];
    var o := fetch(n, urls[n]);
    assert Table(urls, fetch) == if Stored(o) then Table(init, fetch)[Key(n) := Entry(n, urls[n], o.content)] else Table(init, fetch);
    if i < n {
      TableAt(init, fetch, i);
      assert init[i] == urls[i];
      assert Key(i) != Key(n) by {
        if Key(i) == Key(n) { KeyInjective(i, n); }
      }
    } else if Key(n) in Table(init, fetch) {
      TableKeyAt(init, fetch, Key(n));
      var j :| 0 <= j < n && Key(n) == Key(j);
      KeyInjective(j, n);
    }
  }

  lemma {:induction false} TableKeyAt(urls: seq<string>, fetch: Fetcher, k: string)
    requires k in Table(urls, fetch)
    ensures exists i :: 0 <= i < |urls| && k == Key(i) && Stored(fetch(i, urls[i]))
    decreases |urls|
  {
    var n := |urls| - 1;
    var init := urls[..n];
    if k != Key(n) || !Stored(fetch(n, urls[n])) {
      TableKeyAt(init, fetch, k);
      var i :| 0 <= i < n && k == Key(i) && Stored(fetch(i, init[i]));
      assert init[i] == urls[i];
    }
  }

  /** The table holds the key of position `i` exactly when the fetch at `i`
      succeeded; it then holds that URL's entry, whose name carries the same
      position; and it holds no other key. */
  lemma TableContents(urls: seq<string>, fetch: Fetcher)
    ensures forall i :: 0 <= i < |urls| ==> (Key(i) in Table(urls, fetch) <==> Stored(fetch(i, urls[i])))
    ensures forall i :: 0 <= i < |urls| && Stored(fetch(i, urls[i])) ==>
      Table(urls, fetch)[Key(i)] == Entry(i, urls[i], fetch(i, urls[i]).content)
    ensures forall k :: k in Table(urls, fetch) ==>
      exists i :: 0 <= i < |urls| && k == Key(i) && Stored(fetch(i, urls[i]))
  {
    forall i | 0 <= i < |urls|
      ensures Key(i) in Table(urls, fetch) <==> Stored(fetch(i, urls[i]))
      ensures Stored(fetch(i, urls[i])) ==> Table(urls, fetch)[Key(i)] == Entry(i, urls[i], fetch(i, urls[i]).content)
    {
      TableAt(urls, fetch, i);
    }
    forall k | k in Table(urls, fetch)
      ensures exists i :: 0 <= i < |urls| && k == Key(i) && Stored(fetch(i, urls[i]))
    {
      TableKeyAt(urls, fetch, k);
    }
  }

  /** The table has one entry per successful fetch, so never more entries
      than there are non-empty URLs. */
  lemma {:induction false} TableSize(urls: seq<string>, fetch: Fetcher)
    ensures |Table(urls, fetch)| == CountStored(urls, fetch) <= |urls|
    decreases |urls|
  {
    if urls != [] {
      var n := |urls| - 1;
      TableSize(urls[..n], fetch);
      if Stored(fetch(n, urls[n])) && Key(n) in Table(urls[..n], fetch) {
        TableKeyAt(urls[..n], fetch, Key(n));
        var i :| 0 <= i < n && Key(n) == Key(i);
        KeyInjective(i, n);
      }
    }
  }

  /** The table is empty exactly when every fetch failed. */
  lemma TableEmpty(urls: seq<string>, fetch: Fetcher)
    ensures Table(urls, fetch) == map[] <==> forall i :: 0 <= i < |urls| ==> !Stored(fetch(i, urls[i]))
  {
    if Table(urls, fetch) != map[] {
      var k :| k in Table(urls, fetch);
      TableKeyAt(urls, fetch, k);
    }
    forall i | 0 <= i < |urls| && Stored(fetch(i, urls[i])) ensures Table(urls, fetch) != map[] {
      TableAt(urls, fetch, i);
    }
  }

  /** The insertion order lists each key of the table once and nothing else. */
  lemma {:induction false} KeyOrderSpec(urls: seq<string>, fetch: Fetcher)
    ensures forall k :: k in KeyOrder(urls, fetch) <==> k in Table(urls, fetch)
    ensures forall a, b :: 0 <= a < b < |KeyOrder(urls, fetch)| ==> KeyOrder(urls, fetch)[a] != KeyOrder(urls, fetch)[b]
    ensures |KeyOrder(urls, fetch)| == CountStored(urls, fetch)
    decreases |urls|
  {
    if urls != [] {
      var n := |urls| - 1;
      var init := urls[..n];
      KeyOrderSpec(init, fetch);
      var prev := KeyOrder(init, fetch);
      if Stored(fetch(n, urls[n])) && Key(n) in prev {
        TableKeyAt(init, fetch, Key(n));
        var j :| 0 <= j < n && Key(n) == Key(j);
        KeyInjective(j, n);
      }
      assert Stored(fetch(n, urls[n])) ==> Key(n) !in prev;
    }
  }

  /** Empty URLs use up no position: dropping one leaves the table as it was. */
  lemma EmptyUrlUsesNoIndex(before: seq<string>, after: seq<string>, fetch: Fetcher)
    ensures Table(NonEmpty(before + [""] + after), fetch) == Table(NonEmpty(before + after), fetch)
    ensures KeyOrder(NonEmpty(before + [""] + after), fetch) == KeyOrder(NonEmpty(before + after), fetch)
  {
    NonEmptyDropsEmpty(before, after);
  }

  lemma NonEmptyDropsEmpty(before: seq<string>, after: seq<string>)
    ensures NonEmpty(before + [""] + after) == NonEmpty(before + after)
  {
    assert before + [""] + after == before + ([""] + after);
    NonEmptyAppend(before, [""] + after);
    NonEmptyAppend(before, after);
    assert ([""] + after)[1..] == after;
    assert NonEmpty([""] + after) == NonEmpty(after);
  }

  /** The extension is the text after the last `.` of the URL, up to the first
      `?` after it, in lower case: it holds no `.`, no `?` and no capital. */
  lemma ExtensionSpec(url: string)
    ensures var ext := Extension(url);
      '.' !in ext && '?' !in ext && forall i :: 0 <= i < |ext| ==> !IsUpper(ext[i])
    ensures var tail := AfterLast(url, '.');
      '.' !in tail
      && (tail == url || (|tail| < |url| && url[|url| - |tail| - 1] == '.' && url[|url| - |tail|..] == tail))
      && Extension(url) == Lower(BeforeFirst(tail, '?'))
  {
    var tail := AfterLast(url, '.');
    AfterLastSpec(url, '.');
    BeforeFirstSpec(tail, '?');
    var stem := BeforeFirst(tail, '?');
    assert '.' !in stem by {
      if |stem| < |tail| { assert stem == tail[..|stem|]; }
    }
    var ext := Lower(stem);
    forall i | 0 <= i < |ext| ensures ext[i] != '.' && ext[i] != '?' {
      assert stem[i] != '.' && stem[i] != '?';
    }
  }

  /** A URL `path.ext?query` has extension `ext` in lower case, whatever
      the path holds. */
  lemma ExtensionWithQuery(path: string, ext: string, query: string)
    requires '.' !in ext && '?' !in ext && '.' !in query
    ensures Extension(path + "." + ext + "?" + query) == Lower(ext)
  {
    var t := ext + "?" + query;
    assert path + "." + ext + "?" + query == path + ['.'] + t;
    AfterLastOf(path, '.', t);
    assert t == ext + ['?'] + query;
    BeforeFirstOf(ext, '?', query);
  }

  /** The worked case: `….PDF?token=…` is a PDF, named with `pdf`. */
  lemma PdfWithQueryString(path: string, query: string)
    requires '.' !in query
    ensures Extension(path + ".PDF?" + query) == "pdf"
    ensures MimeType(Extension(path + ".PDF?" + query)) == "application/pdf"
  {
    assert path + ".PDF?" + query == path + "." + "PDF" + "?" + query;
    ExtensionWithQuery(path, "PDF", query);
    assert Lower("PDF") == "pdf";
  }

  /** The extension is not blind to the query string: a `.` in the query
      makes what follows it the extension, whatever came before. */
  lemma ExtensionAfterQueryDot(url: string, d: string)
    requires '.' !in d && '?' !in d
    ensures Extension(url + "." + d) == Lower(d)
  {
    assert url + "." + d == url + ['.'] + d;
    AfterLastOf(url, '.', d);
    BeforeFirstSpec(d, '?');
  }

  /** The worked case: `path.pdf?v=1.5` has extension `5`, so it is sent
      as `application/octet-stream`, not as a PDF. */
  lemma DottedQueryExample(path: string)
    ensures Extension(path + ".pdf?v=1.5") == "5"
    ensures MimeType(Extension(path + ".pdf?v=1.5")) == DefaultMime
  {
    var d := "5";
    assert path + ".pdf?v=1.5" == (path + ".pdf?v=1") + "." + d;
    ExtensionAfterQueryDot(path + ".pdf?v=1", d);
    assert Lower(d) == d;
  }

  /** One more URL at the end adds at most its own key. */
  lemma KeyOrderSnoc(urls: seq<string>, u: string, fetch: Fetcher)
    ensures KeyOrder(urls + [u], fetch) ==
      KeyOrder(urls, fetch) + (if Stored(fetch(|urls|, u)) then [Key(|urls|)] else [])
  {
    var s := urls + [u];
    assert s[..|urls|] == urls && s[|urls|] == u;
  }

  /** A failed fetch in the middle leaves a gap in the listed keys: the
      first and the third (`file1` and `file3`). */
  lemma SparseOrder(a: string, b: string, c: string, fetch: Fetcher)
    requires Stored(fetch(0, a)) && !Stored(fetch(1, b)) && Stored(fetch(2, c))
    ensures KeyOrder([a, b, c], fetch) == [Key(0), Key(2)]
  {
    assert [] + [a] == [a] && [a] + [b] == [a, b] && [a, b] + [c] == [a, b, c];
    KeyOrderSnoc([], a, fetch);
    KeyOrderSnoc([a], b, fetch);
    KeyOrderSnoc([a, b], c, fetch);
  }

  /** A URL listed twice is fetched twice: when only the second fetch
      succeeds, only the second key is listed. */
  lemma RepeatedUrlOrder(u: string, fetch: Fetcher)
    requires !Stored(fetch(0, u)) && Stored(fetch(1, u))
    ensures KeyOrder([u, u], fetch) == [Key(1)]
  {
    assert [] + [u] == [u] && [u] + [u] == [u, u];
    KeyOrderSnoc([], u, fetch);
    KeyOrderSnoc([u], u, fetch);
  }

  /** In the same case only `file2` is filed. */
  lemma RepeatedUrl(u: string, fetch: Fetcher)
    requires !Stored(fetch(0, u)) && Stored(fetch(1, u))
    ensures Table([u, u], fetch).Keys == {Key(1)}
  {
    RepeatedUrlOrder(u, fetch);
    var urls := [u, u];
    KeyOrderSpec(urls, fetch);
    var order := KeyOrder(urls, fetch);
    forall k ensures k in Table(urls, fetch) <==> k == Key(1) {
      assert k in order <==> k == Key(1);
    }
  }

  /** The same gap in the table itself. */
  lemma SparseKeys(a: string, b: string, c: string, fetch: Fetcher)
    requires Stored(fetch(0, a)) && !Stored(fetch(1, b)) && Stored(fetch(2, c))
    ensures Table([a, b, c], fetch).Keys == {Key(0), Key(2)}
  {
    SparseOrder(a, b, c, fetch);
    var urls := [a, b, c];
    KeyOrderSpec(urls, fetch);
    var order := KeyOrder(urls, fetch);
    forall k ensures k in Table(urls, fetch) <==> k == Key(0) || k == Key(2) {
      assert k in order <==> k == Key(0) || k == Key(2);
    }
  }
}
