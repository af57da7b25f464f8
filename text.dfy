/** String operations of Python's `str` that the pipeline relies on. */
module Text {

  /** `sep.join(parts)`. */
  function Join(parts: seq<string>, sep: string): string
  {
    if parts == [] then ""
    else if |parts| == 1 then parts[0]
    else parts[0] + sep + Join(parts[1..], sep)
  }

  /** `s.split(sep)` for a non-empty separator: the pieces between the
      non-overlapping occurrences of `sep`, found left to right. */
  function Split(s: string, sep: string): (r: seq<string>)
    requires sep != []
    ensures |r| >= 1
    decreases |s|
  {
    if |s| < |sep| then [s]
    else if s[..|sep|] == sep then [""] + Split(s[|sep|..], sep)
    else
      var rest := Split(s[1..], sep);
      [[s[0]] + rest[0]] + rest[1..]
  }

  /** `k` copies of `sep` written one after the other. */
  function Repeat(sep: string, k: nat): string
  {
    if k == 0 then "" else sep + Repeat(sep, k - 1)
  }

  /** Python's `any(parts)` is false: every piece is the empty string. */
  predicate AllEmpty(parts: seq<string>)
  {
    forall i :: 0 <= i < |parts| ==> parts[i] == ""
  }

  function Last<T>(s: seq<T>): T
    requires s != []
  {
    s[|s| - 1]
  }

  /** `s.split(c)[-1]`: the text after the last `c` (all of `s` if it has none). */
  function AfterLast(s: string, c: char): string
  {
    Last(Split(s, [c]))
  }

  /** `s.split(c)[0]`: the text before the first `c` (all of `s` if it has none). */
  function BeforeFirst(s: string, c: char): string
  {
    Split(s, [c])[0]
  }

  /** `str.lower()` on a character, for the ASCII letters. */
  function LowerChar(ch: char): char
  {
    if 'A' <= ch <= 'Z' then (ch as int + 32) as char else ch
  }

  predicate IsUpper(ch: char)
  {
    'A' <= ch <= 'Z'
  }

  /** `s.lower()`, for the ASCII letters. */
  function Lower(s: string): (r: string)
    ensures |r| == |s|
    ensures forall i :: 0 <= i < |s| ==> !IsUpper(r[i])
    ensures forall i :: 0 <= i < |s| && !IsUpper(s[i]) ==> r[i] == s[i]
    ensures forall i :: 0 <= i < |s| && IsUpper(s[i]) ==> r[i] as int == s[i] as int + 32
  {
    seq(|s|, i requires 0 <= i < |s| => LowerChar(s[i]))
  }

  function DigitChar(d: nat): char
    requires d < 10
  {
    ('0' as int + d) as char
  }

  /** The decimal numeral of `n`, as Python's `f"{n}"` writes it. */
  function Decimal(n: nat): (r: string)
    ensures r != []
    ensures forall i :: 0 <= i < |r| ==> '0' <= r[i] <= '9'
  {
    if n < 10 then [DigitChar(n)] else Decimal(n / 10) + [DigitChar(n % 10)]
  }

  /** The number a string of decimal digits denotes. */
  function DecimalValue(s: string): nat
    requires forall i :: 0 <= i < |s| ==> '0' <= s[i] <= '9'
  {
    if s == [] then 0
    else 10 * DecimalValue(s[..|s| - 1]) + (s[|s| - 1] as int - '0' as int)
  }

  /** `filter(None, parts)`: the non-empty URLs, in order. */
  function NonEmpty(parts: seq<string>): (r: seq<string>)
    ensures |r| <= |parts|
    ensures forall i :: 0 <= i < |r| ==> r[i] != "" && r[i] in parts
    ensures forall u :: u in parts && u != "" ==> u in r
  {
    if parts == [] then []
    else (if parts[0] == "" then [] else [parts[0]]) + NonEmpty(parts[1..])
  }

  // ---------------------------------------------------------------------
  // Lemmas
  // ---------------------------------------------------------------------

  /** Reading back a numeral gives the number: `Decimal` is injective. */
  lemma {:induction false} DecimalRoundTrip(n: nat)
    ensures DecimalValue(Decimal(n)) == n
  {
    if n >= 10 {
      var r := Decimal(n);
      assert r[..|r| - 1] == Decimal(n / 10);
      DecimalRoundTrip(n / 10);
    }
  }

  lemma DecimalInjective(m: nat, n: nat)
    requires Decimal(m) == Decimal(n)
    ensures m == n
  {
    DecimalRoundTrip(m);
    DecimalRoundTrip(n);
  }

  lemma {:induction false} JoinCons(p: string, parts: seq<string>, sep: string)
    requires parts != []
    ensures Join([p] + parts, sep) == p + sep + Join(parts, sep)
  {
    assert ([p] + parts)[1..] == parts;
  }

  /** Joining the pieces of a split gives back the string. */
  lemma {:induction false} SplitJoin(s: string, sep: string)
    requires sep != []
    ensures Join(Split(s, sep), sep) == s
    decreases |s|
  {
    if |s| < |sep| {
    } else if s[..|sep|] == sep {
      SplitMatch(s, sep);
      var rest := Split(s[|sep|..], sep);
      SplitJoin(s[|sep|..], sep);
      JoinCons("", rest, sep);
      assert s == sep + s[|sep|..];
    } else {
      SplitNoMatch(s, sep);
      var rest := Split(s[1..], sep);
      SplitJoin(s[1..], sep);
      JoinHead(s[0], rest, sep);
      assert s == [s[0]] + s[1..];
    }
  }

  lemma SplitMatch(s: string, sep: string)
    requires sep != [] && |s| >= |sep| && s[..|sep|] == sep
    ensures Split(s, sep) == [""] + Split(s[|sep|..], sep)
  {
  }

  lemma SplitNoMatch(s: string, sep: string)
    requires sep != [] && |s| >= |sep| && s[..|sep|] != sep
    ensures var rest := Split(s[1..], sep);
      Split(s, sep) == [[s[0]] + rest[0]] + rest[1..]
  {
  }

  /** Putting a character in front of the first piece puts it in front of the join. */
  lemma JoinHead(ch: char, parts: seq<string>, sep: string)
    requires parts != []
    ensures Join([[ch] + parts[0]] + parts[1..], sep) == [ch] + Join(parts, sep)
  {
    if |parts| > 1 {
      JoinCons([ch] + parts[0], parts[1..], sep);
      JoinCons(parts[0], parts[1..], sep);
      assert parts == [parts[0]] + parts[1..];
    } else {
      assert [[ch] + parts[0]] + parts[1..] == [[ch] + parts[0]];
    }
  }

  /** No piece of a split on one character contains that character. */
  lemma {:induction false} SplitPiecesFree(s: string, c: char)
    ensures forall i :: 0 <= i < |Split(s, [c])| ==> c !in Split(s, [c])[i]
    decreases |s|
  {
    if |s| < 1 {
    } else if s[..1] == [c] {
      SplitPiecesFree(s[1..], c);
    } else {
      SplitPiecesFree(s[1..], c);
      assert s[0] != c by { assert s[..1] == [s[0]]; }
    }
  }

  lemma {:induction false} JoinSnoc(parts: seq<string>, q: string, sep: string)
    requires parts != []
    ensures Join(parts + [q], sep) == Join(parts, sep) + sep + q
    decreases |parts|
  {
    if |parts| == 1 {
      assert (parts + [q])[1..] == [q];
    } else {
      assert (parts + [q])[1..] == parts[1..] + [q];
      JoinSnoc(parts[1..], q, sep);
    }
  }

  /** `AfterLast` is the text after the last `c`: a suffix free of `c`,
      which is either all of `s` or preceded by a `c`. */
  lemma AfterLastSpec(s: string, c: char)
    ensures c !in AfterLast(s, c)
    ensures var r := AfterLast(s, c);
      (r == s && c !in s) || (|r| < |s| && s[|s| - |r|..] == r && s[|s| - |r| - 1] == c)
  {
    var parts := Split(s, [c]);
    SplitJoin(s, [c]);
    SplitPiecesFree(s, c);
    var r := Last(parts);
    assert c !in r by { assert r == parts[|parts| - 1]; }
    if |parts| > 1 {
      var init := parts[..|parts| - 1];
      assert parts == init + [r];
      JoinSnoc(init, r, [c]);
      var front := Join(init, [c]);
      assert s == front + [c] + r;
      assert s[|s| - |r|..] == r;
      assert s[|s| - |r| - 1] == c;
    }
  }

  /** `BeforeFirst` is the text before the first `c`: a prefix free of `c`,
      which is either all of `s` or followed by a `c`. */
  lemma BeforeFirstSpec(s: string, c: char)
    ensures c !in BeforeFirst(s, c)
    ensures var r := BeforeFirst(s, c);
      (r == s && c !in s) || (|r| < |s| && s[..|r|] == r && s[|r|] == c)
  {
    var parts := Split(s, [c]);
    SplitJoin(s, [c]);
    SplitPiecesFree(s, c);
    var r := parts[0];
    if |parts| > 1 {
      assert parts == [r] + parts[1..];
      JoinCons(r, parts[1..], [c]);
      assert s == r + [c] + Join(parts[1..], [c]);
      assert s[..|r|] == r;
      assert s[|r|] == c;
    }
  }

  /** The text after the last `c` of `p + [c] + t`, when `t` has no `c`, is `t`. */
  lemma AfterLastOf(p: string, c: char, t: string)
    requires c !in t
    ensures AfterLast(p + [c] + t, c) == t
  {
    var s := p + [c] + t;
    AfterLastSpec(s, c);
    var r := AfterLast(s, c);
    assert s[|p|] == c;
    assert s[|s| - |t|..] == t;
  }

  /** The text before the first `c` of `h + [c] + t`, when `h` has no `c`, is `h`. */
  lemma BeforeFirstOf(h: string, c: char, t: string)
    requires c !in h
    ensures BeforeFirst(h + [c] + t, c) == h
  {
    var s := h + [c] + t;
    BeforeFirstSpec(s, c);
    var r := BeforeFirst(s, c);
    assert s[|h|] == c;
    assert s[..|h|] == h;
  }

  /** A piece free of commas up to the next `", "` comes off the front. */
  lemma {:induction false} SplitCommaSpace(p: string, rest: string)
    requires ',' !in p
    ensures Split(p + ", " + rest, ", ") == [p] + Split(rest, ", ")
    decreases |p|
  {
    var s := p + ", " + rest;
    if p == [] {
      assert s == ", " + rest && s[..2] == ", " && s[2..] == rest;
    } else {
      assert s[0] == p[0] && s[..2] != ", ";
      assert s[1..] == p[1..] + ", " + rest;
      SplitCommaSpace(p[1..], rest);
      assert [p[0]] + p[1..] == p;
    }
  }

  /** An empty entry between two comma-free ones: `a, , b`. */
  lemma SplitGap(a: string, b: string)
    requires ',' !in a && ',' !in b
    ensures Split(a + ", , " + b, ", ") == [a, "", b]
  {
    assert a + ", , " + b == a + ", " + ("" + ", " + b);
    SplitCommaSpace(a, "" + ", " + b);
    SplitCommaSpace("", b);
    SplitNoComma(b);
  }

  lemma NonEmptyGap(a: string, b: string)
    requires a != "" && b != ""
    ensures NonEmpty([a, "", b]) == [a, b]
  {
    assert [a, "", b][1..] == ["", b] && ["", b][1..] == [b] && [b][1..] == [];
    assert NonEmpty([b]) == [b] + [];
    assert NonEmpty(["", b]) == [] + [b];
    assert NonEmpty([a, "", b]) == [a] + [b];
  }

  /** A string without a comma is one piece. */
  lemma {:induction false} SplitNoComma(s: string)
    requires ',' !in s
    ensures Split(s, ", ") == [s]
    decreases |s|
  {
    if |s| >= 2 {
      assert s[..2] != ", " by { assert s[0] != ','; }
      SplitNoComma(s[1..]);
      assert [s[0]] + s[1..] == s;
    }
  }

  lemma {:induction false} SplitRepeat(sep: string, k: nat)
    requires sep != []
    ensures Split(Repeat(sep, k), sep) == seq(k + 1, i => "")
  {
    if k > 0 {
      var s := Repeat(sep, k);
      assert s[..|sep|] == sep && s[|sep|..] == Repeat(sep, k - 1);
      SplitRepeat(sep, k - 1);
    }
  }

  lemma {:induction false} JoinEmpties(parts: seq<string>, sep: string)
    requires |parts| >= 1 && AllEmpty(parts)
    ensures Join(parts, sep) == Repeat(sep, |parts| - 1)
    decreases |parts|
  {
    if |parts| > 1 {
      JoinEmpties(parts[1..], sep);
    }
  }

  /** A split yields only empty pieces exactly when the string is a run
      of separators. */
  lemma SplitAllEmpty(s: string, sep: string)
    requires sep != []
    ensures AllEmpty(Split(s, sep)) <==> exists k: nat :: s == Repeat(sep, k)
  {
    if AllEmpty(Split(s, sep)) {
      AllEmptyIsRepeat(s, sep);
    }
    if exists k: nat :: s == Repeat(sep, k) {
      var k: nat :| s == Repeat(sep, k);
      SplitRepeat(sep, k);
    }
  }

  lemma AllEmptyIsRepeat(s: string, sep: string)
    requires sep != [] && AllEmpty(Split(s, sep))
    ensures s == Repeat(sep, |Split(s, sep)| - 1)
  {
    SplitJoin(s, sep);
    EmptiesJoinTo(Split(s, sep), sep, s);
  }

  lemma EmptiesJoinTo(parts: seq<string>, sep: string, s: string)
    requires |parts| >= 1 && AllEmpty(parts) && Join(parts, sep) == s
    ensures s == Repeat(sep, |parts| - 1)
  {
    JoinEmpties(parts, sep);
  }

  lemma {:induction false} NonEmptyAppend(a: seq<string>, b: seq<string>)
    ensures NonEmpty(a + b) == NonEmpty(a) + NonEmpty(b)
  {
    if a != [] {
      assert (a + b)[1..] == a[1..] + b;
      NonEmptyAppend(a[1..], b);
    } else {
      assert a + b == b;
    }
  }

  /** Filtering leaves nothing exactly when every piece is empty. */
  lemma {:induction false} NonEmptyNil(parts: seq<string>)
    ensures NonEmpty(parts) == [] <==> AllEmpty(parts)
  {
    if parts != [] {
      NonEmptyNil(parts[1..]);
      assert forall i :: 1 <= i < |parts| ==> parts[i] == parts[1..][i - 1];
    }
  }

}
