/** `gerar_links_anexos`: the block of download links appended to the e-mail body. */
module Links {
  import opened Text

  const DivOpen: string :=
    "<div style='border: 1px solid #ccc; padding: 10px; margin-top: 10px;'><h3>Clique aqui para baixar os Anexos:</h3>"
  const DivClose: string := "</div>"
  const AnchorOpen: string := "<br><a href='"
  const AnchorStyle: string := "' style='text-decoration: none; color: #007bff;'>"
  const AnchorClose: string := "</a>"

  /** `os.path.basename(p)`: the text after the last `/`. */
  function Basename(p: string): string
  {
    AfterLast(p, '/')
  }

  /** The text a link shows: the base name of the URL without its query string. */
  function LinkText(url: string): string
  {
    Basename(BeforeFirst(url, '?'))
  }

  /** One link: the full URL as target, its base name as text. */
  function Link(url: string): string
  {
    AnchorOpen + url + AnchorStyle + LinkText(url) + AnchorClose
  }

  /** `"".join([... for url in urls if url])`. */
  function Anchors(urls: seq<string>): string
  {
    if urls == [] then ""
    else (if urls[0] == "" then "" else Link(urls[0])) + Anchors(urls[1..])
  }

  /** `gerar_links_anexos(urls)`. */
  function LinkBlock(urls: seq<string>): (r: string)
    ensures r == "" <==> urls == []
    ensures urls != [] ==> |r| >= |DivOpen| + |DivClose| && r[..|DivOpen|] == DivOpen && r[|r| - |DivClose|..] == DivClose
    ensures urls != [] ==> r == DivOpen + AnchorsOf(NonEmpty(urls)) + DivClose
  {
    if urls == [] then ""
    else
      AnchorsOfNonEmptyUrls(urls);
      DivOpen + Anchors(urls) + DivClose
  }

  /** The links of the URLs in the order given, one per URL. */
  function AnchorsOf(urls: seq<string>): string
  {
    if urls == [] then "" else Link(urls[0]) + AnchorsOf(urls[1..])
  }

  // ---------------------------------------------------------------------
  // Lemmas
  // ---------------------------------------------------------------------

  lemma AnchorsOfCons(u: string, rest: seq<string>)
    ensures AnchorsOf([u] + rest) == Link(u) + AnchorsOf(rest)
  {
    assert ([u] + rest)[1..] == rest;
  }

  lemma NonEmptyCons(urls: seq<string>)
    requires urls != []
    ensures NonEmpty(urls) == (if urls[0] == "" then [] else [urls[0]]) + NonEmpty(urls[1..])
  {
  }

  /** The block holds one link per non-empty URL, in input order. */
  lemma {:induction false} AnchorsOfNonEmptyUrls(urls: seq<string>)
    ensures Anchors(urls) == AnchorsOf(NonEmpty(urls))
  {
    if urls != [] {
      AnchorsOfNonEmptyUrls(urls[1..]);
      NonEmptyCons(urls);
      if urls[0] != "" {
        AnchorsOfCons(urls[0], NonEmpty(urls[1..]));
      } else {
        assert [] + NonEmpty(urls[1..]) == NonEmpty(urls[1..]);
      }
    }
  }

  /** The anchors of a concatenation are the anchors of each part, in order. */
  lemma {:induction false} AnchorsAppend(a: seq<string>, b: seq<string>)
    ensures Anchors(a + b) == Anchors(a) + Anchors(b)
  {
    if a == [] {
      assert a + b == b;
    } else {
      assert (a + b)[1..] == a[1..] + b;
      AnchorsAppend(a[1..], b);
    }
  }

  /** A list of only empty URLs still gets the bordered box and its heading. */
  lemma {:induction false} EmptyUrlsGiveBareBox(urls: seq<string>)
    requires urls != [] && AllEmpty(urls)
    ensures LinkBlock(urls) == DivOpen + DivClose
  {
    NonEmptyNil(urls);
    AnchorsOfNonEmptyUrls(urls);
  }

  /** The link text is the final path segment of the URL before its query
      string: it holds neither a `/` nor a `?`. */
  lemma LinkTextSpec(url: string)
    ensures '/' !in LinkText(url) && '?' !in LinkText(url)
    ensures var path := BeforeFirst(url, '?');
      var t := LinkText(url);
      (t == path && '/' !in path) || (|t| < |path| && path[|path| - |t|..] == t && path[|path| - |t| - 1] == '/')
  {
    var path := BeforeFirst(url, '?');
    BeforeFirstSpec(url, '?');
    AfterLastSpec(path, '/');
    var t := LinkText(url);
    assert '?' !in t by {
      if |t| < |path| { assert t == path[|path| - |t|..]; }
    }
  }

  lemma ExampleText()
    ensures LinkText("https://h/docs/a.pdf?x=1") == "a.pdf"
  {
    assert "https://h/docs/a.pdf?x=1" == "https://h/docs/a.pdf" + ['?'] + "x=1";
    BeforeFirstOf("https://h/docs/a.pdf", '?', "x=1");
    assert "https://h/docs/a.pdf" == "https://h/docs" + ['/'] + "a.pdf";
    AfterLastOf("https://h/docs", '/', "a.pdf");
  }
}
