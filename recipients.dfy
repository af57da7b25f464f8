/** `definir_destinatarios`: the reply-to address and the recipient list. */
module Recipients {
  import opened Basics
  import opened Json

  /** The monitoring address every message is also sent to. */
  const Monitor: string := "integracao.odos@gmail.com"

  /** Department code to (reply-to address, extra recipients). */
  const Departments: map<string, (string, seq<string>)> := map[
    "FISCAL" := ("fiscal@odoscontabilidade.com.br", ["samuel@odoscontabilidade.com.br"]),
    "CONT\U{00C1}BIL" := ("contabil@odoscontabilidade.com.br", ["nathalialeal@odoscontabilidade.com.br"]),
    "LEGAL" := ("centraldesolucoes@odoscontabilidade.com.br", ["barbara@odoscontabilidade.com.br"]),
    "SUCESSO" := ("sucesso@odoscontabilidade.com.br", [])
  ]

  /** `departamentos.get(departamento, ("", []))`. */
  function Route(department: Option<string>): (r: (string, seq<string>))
    ensures department.Some? && department.value in Departments ==> r == Departments[department.value]
    ensures (department.None? || department.value !in Departments) ==> r == ("", [])
  {
    if department.Some? && department.value in Departments then Departments[department.value] else ("", [])
  }

  function Strings(ss: seq<string>): (r: seq<Json>)
    ensures |r| == |ss| && forall i :: 0 <= i < |ss| ==> r[i] == JStr(ss[i])
  {
    seq(|ss|, i requires 0 <= i < |ss| => JStr(ss[i]))
  }

  /** Some element of `s` equals `x` in Python's sense. */
  predicate HasEq(s: seq<Json>, x: Json)
  {
    exists y :: y in s && PyEq(y, x)
  }

  /** `list(filter(None, set(xs)))` for hashable `xs`: one element per class of
      equal truthy values, the one met first. */
  function Dedupe(xs: seq<Json>): seq<Json>
    decreases |xs|
  {
    if xs == [] then []
    else
      var rest := Dedupe(xs[..|xs| - 1]);
      var x := xs[|xs| - 1];
      if !Truthy(x) || HasEq(rest, x) then rest else rest + [x]
  }

  /** The result of `definir_destinatarios(department, emails)` for a list
      `emails`: the merged list raises TypeError in `set(...)` when it holds
      a list or dict, and the function then answers `("", [])`. */
  function Resolve(department: Option<string>, emails: seq<Json>): (string, seq<Json>)
  {
    var route := Route(department);
    var all := emails + Strings(route.1) + [JStr(Monitor)];
    if exists k :: 0 <= k < |all| && !Hashable(all[k]) then ("", [])
    else (route.0, Dedupe(all))
  }

  /** `definir_destinatarios`: extends the queried list with the department's
      extra recipients and the monitoring address, then removes duplicates
      and empty values. A list or dict among the values makes `set(...)`
      raise and the answer is `("", [])`; otherwise the reply-to is the
      department's and the list holds each non-empty queried string, extra
      recipient and the monitoring address exactly once. */
  method DefineRecipients(department: Option<string>, emails: seq<Json>)
    returns (reply: string, recipients: seq<Json>)
    ensures (reply, recipients) == Resolve(department, emails)
    ensures (exists k :: 0 <= k < |emails| && !Hashable(emails[k])) ==> reply == "" && recipients == []
    ensures (forall k :: 0 <= k < |emails| ==> Hashable(emails[k])) ==>
      reply == Route(department).0
      && JStr(Monitor) in recipients
      && forall s: string :: JStr(s) in recipients <==>
           s != "" && (JStr(s) in emails || s in Route(department).1 || s == Monitor)
    ensures forall i :: 0 <= i < |recipients| ==> Truthy(recipients[i])
    ensures forall i, j :: 0 <= i < j < |recipients| ==> !PyEq(recipients[i], recipients[j])
  {
    var route := Route(department);
    var merged := emails;
    merged := merged + Strings(route.1);
    merged := merged + [JStr(Monitor)];
    ResolveDistinct(department, emails);
    if exists k :: 0 <= k < |merged| && !Hashable(merged[k]) {
      if exists k :: 0 <= k < |emails| && !Hashable(emails[k]) {
        var k :| 0 <= k < |emails| && !Hashable(emails[k]);
        UnhashableEmptiesAll(department, emails, k);
      }
      return "", [];
    }
    forall k | 0 <= k < |emails| ensures Hashable(emails[k]) {
      assert merged[k] == emails[k];
    }
    ResolveSpec(department, emails);
    reply, recipients := route.0, Dedupe(merged);
  }

  predicate OccursOnceAt(s: seq<Json>, x: Json, i: int)
  {
    0 <= i < |s| && s[i] == x && forall j :: 0 <= j < |s| && s[j] == x ==> j == i
  }

  /** `x` stands in `s` at exactly one position. */
  predicate OccursOnce(s: seq<Json>, x: Json)
  {
    exists i :: 0 <= i < |s| && OccursOnceAt(s, x, i)
  }

  // ---------------------------------------------------------------------
  // Lemmas
  // ---------------------------------------------------------------------

  /** Every kept value comes from the input and is truthy. */
  lemma {:induction false} DedupeSound(xs: seq<Json>)
    ensures forall y :: y in Dedupe(xs) ==> y in xs && Truthy(y)
    decreases |xs|
  {
    if xs != [] {
      var init := xs[..|xs| - 1];
      DedupeSound(init);
      assert forall y :: y in init ==> y in xs;
    }
  }

  /** Every truthy input value is represented by an equal kept value. */
  lemma {:induction false} DedupeComplete(xs: seq<Json>)
    ensures forall x :: x in xs && Truthy(x) ==> HasEq(Dedupe(xs), x)
    decreases |xs|
  {
    if xs != [] {
      var init := xs[..|xs| - 1];
      DedupeComplete(init);
      var rest := Dedupe(init);
      var last := xs[|xs| - 1];
      assert xs == init + [last];
      forall x | x in xs && Truthy(x) ensures HasEq(Dedupe(xs), x) {
        if x in init {
          var y :| y in rest && PyEq(y, x);
          assert y in Dedupe(xs);
        } else {
          assert x == last;
          if !HasEq(rest, x) {
            assert x in Dedupe(xs) && PyEq(x, x);
          } else {
            var y :| y in rest && PyEq(y, x);
            assert y in Dedupe(xs);
          }
        }
      }
    }
  }

  /** No two kept values are equal. */
  lemma {:induction false} DedupeUnique(xs: seq<Json>)
    ensures forall i, j :: 0 <= i < j < |Dedupe(xs)| ==> !PyEq(Dedupe(xs)[i], Dedupe(xs)[j])
    decreases |xs|
  {
    if xs != [] {
      var init := xs[..|xs| - 1];
      DedupeUnique(init);
      var rest := Dedupe(init);
      var last := xs[|xs| - 1];
      if Truthy(last) && !HasEq(rest, last) {
        var r := rest + [last];
        forall i, j | 0 <= i < j < |r| ensures !PyEq(r[i], r[j]) {
          if j == |rest| {
            assert r[i] in rest;
          } else {
            assert r[i] == rest[i] && r[j] == rest[j];
          }
        }
      }
    }
  }

  /** For a queried list of hashable values: the reply-to address is the
      department's, the list names the monitoring address, and a string is
      in the list exactly when it is non-empty and was queried, is one of the
      department's extras or is the monitoring address. */
  lemma ResolveSpec(department: Option<string>, emails: seq<Json>)
    requires forall k :: 0 <= k < |emails| ==> Hashable(emails[k])
    ensures Resolve(department, emails).0 == Route(department).0
    ensures JStr(Monitor) in Resolve(department, emails).1
    ensures forall s: string :: JStr(s) in Resolve(department, emails).1 <==>
      s != "" && (JStr(s) in emails || s in Route(department).1 || s == Monitor)
  {
    var route := Route(department);
    var all := emails + Strings(route.1) + [JStr(Monitor)];
    forall k | 0 <= k < |all| ensures Hashable(all[k]) {
      if k < |emails| { assert all[k] == emails[k]; }
    }
    var list := Dedupe(all);
    DedupeSound(all);
    DedupeComplete(all);
    assert JStr(Monitor) in all;
    forall s: string ensures JStr(s) in list <==> s != "" && (JStr(s) in emails || s in route.1 || s == Monitor) {
      MergedStrings(emails, route.1, s);
      if s != "" && JStr(s) in all {
        var y :| y in list && PyEq(y, JStr(s));
        PyEqOnStrings(s, y);
      }
    }
  }

  /** A string is in the merged list exactly when it was queried, is one of
      the extras, or is the monitoring address. */
  lemma MergedStrings(emails: seq<Json>, extras: seq<string>, s: string)
    ensures JStr(s) in emails + Strings(extras) + [JStr(Monitor)] <==>
      JStr(s) in emails || s in extras || s == Monitor
  {
    var all := emails + Strings(extras) + [JStr(Monitor)];
    if JStr(s) in all && JStr(s) !in emails && s != Monitor {
      var k :| 0 <= k < |all| && all[k] == JStr(s);
      assert extras[k - |emails|] == s;
    }
    if s in extras {
      var k :| 0 <= k < |extras| && extras[k] == s;
      assert all[|emails| + k] == JStr(s);
    }
  }

  /** The list is never empty, so "no recipient" cannot follow from a
      queried list of hashable values. */
  lemma NeverEmpty(department: Option<string>, emails: seq<Json>)
    requires forall k :: 0 <= k < |emails| ==> Hashable(emails[k])
    ensures Resolve(department, emails).1 != []
  {
    ResolveSpec(department, emails);
  }

  /** A non-empty recipient list always names the monitoring address. */
  lemma MonitorWhenAny(department: Option<string>, emails: seq<Json>)
    requires Resolve(department, emails).1 != []
    ensures JStr(Monitor) in Resolve(department, emails).1
  {
    if exists k :: 0 <= k < |emails| && !Hashable(emails[k]) {
      var k :| 0 <= k < |emails| && !Hashable(emails[k]);
      UnhashableEmptiesAll(department, emails, k);
    } else {
      ResolveSpec(department, emails);
    }
  }

  /** Queried values that are strings wherever they are truthy give a list
      of strings only, which `", ".join` accepts: `None`, `0`, `False` and
      empty values are filtered out before the join. */
  lemma StringRecipients(department: Option<string>, emails: seq<Json>)
    requires forall k :: 0 <= k < |emails| ==> Truthy(emails[k]) ==> emails[k].JStr?
    ensures forall i :: 0 <= i < |Resolve(department, emails).1| ==> Resolve(department, emails).1[i].JStr?
  {
    var all := emails + Strings(Route(department).1) + [JStr(Monitor)];
    forall k | 0 <= k < |all| && Truthy(all[k]) ensures all[k].JStr? {
      if k < |emails| { assert all[k] == emails[k]; }
    }
    DedupeSound(all);
    var list := Resolve(department, emails).1;
    forall i | 0 <= i < |list| ensures list[i].JStr? {
      assert list[i] in all && Truthy(list[i]);
    }
  }

  /** A truthy non-string among hashable queried values is kept in some
      form: the list then holds a value that is not a string. */
  lemma NonStringSurvives(department: Option<string>, emails: seq<Json>, k: nat)
    requires forall j :: 0 <= j < |emails| ==> Hashable(emails[j])
    requires k < |emails| && Truthy(emails[k]) && !emails[k].JStr?
    ensures var list := Resolve(department, emails).1;
      exists i :: 0 <= i < |list| && !list[i].JStr?
  {
    var all := emails + Strings(Route(department).1) + [JStr(Monitor)];
    forall j | 0 <= j < |all| ensures Hashable(all[j]) {
      if j < |emails| { assert all[j] == emails[j]; }
    }
    assert all[k] == emails[k];
    DedupeComplete(all);
    var list := Dedupe(all);
    var y :| y in list && PyEq(y, emails[k]);
    if y.JStr? {
      PyEqOnStrings(y.s, emails[k]);
    }
    var i :| 0 <= i < |list| && list[i] == y;
  }

  /** The list holds no empty or None value and no two equal values. */
  lemma ResolveDistinct(department: Option<string>, emails: seq<Json>)
    ensures var list := Resolve(department, emails).1;
      (forall i :: 0 <= i < |list| ==> Truthy(list[i]))
      && (forall i, j :: 0 <= i < j < |list| ==> !PyEq(list[i], list[j]))
  {
    var route := Route(department);
    var all := emails + Strings(route.1) + [JStr(Monitor)];
    DedupeSound(all);
    DedupeUnique(all);
  }

  /** A list or dict among the queried values makes `set(...)` raise: the
      function then answers an empty reply-to and an empty list. */
  lemma UnhashableEmptiesAll(department: Option<string>, emails: seq<Json>, k: nat)
    requires k < |emails| && !Hashable(emails[k])
    ensures Resolve(department, emails) == ("", [])
  {
    var all := emails + Strings(Route(department).1) + [JStr(Monitor)];
    assert all[k] == emails[k];
  }

  /** The FISCAL department replies from its own address and adds its
      extra recipient to a queried contact. */
  lemma FiscalRecipients(c: string)
    requires c != ""
    ensures Resolve(Some("FISCAL"), [JStr(c)]).0 == "fiscal@odoscontabilidade.com.br"
    ensures var to := Resolve(Some("FISCAL"), [JStr(c)]).1;
      JStr(c) in to && JStr("samuel@odoscontabilidade.com.br") in to && JStr(Monitor) in to
  {
    ResolveSpec(Some("FISCAL"), [JStr(c)]);
    assert Route(Some("FISCAL")) == ("fiscal@odoscontabilidade.com.br", ["samuel@odoscontabilidade.com.br"]);
  }

  /** The worked case: duplicates, an empty string and None collapse to one entry. */
  lemma LegalExample()
    ensures OccursOnce(Resolve(Some("LEGAL"), [JStr("a@x"), JStr("a@x"), JStr(""), JNull]).1, JStr("a@x"))
  {
    var emails := [JStr("a@x"), JStr("a@x"), JStr(""), JNull];
    ResolveSpec(Some("LEGAL"), emails);
    ResolveDistinct(Some("LEGAL"), emails);
    var list := Resolve(Some("LEGAL"), emails).1;
    assert JStr("a@x") in emails;
    assert JStr("a@x") in list;
    var i :| 0 <= i < |list| && list[i] == JStr("a@x");
    forall j | 0 <= j < |list| && list[j] == JStr("a@x") ensures j == i {
      if j < i { assert PyEq(list[j], list[i]); }
      if i < j { assert PyEq(list[i], list[j]); }
    }
    assert OccursOnceAt(list, JStr("a@x"), i);
  }
}
