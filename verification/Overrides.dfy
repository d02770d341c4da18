/**
 * A batch's URL list and its recorded robots overrides: the list grows at its end only and holds no page twice, and an
 * override reaches the URL it names, however it is spelled, and no other.
 */
module Overrides {
  import opened Options
  import Jobs = Lifecycle

  const MAX_URLS := Jobs.MAX_BATCH_URLS

  type Status = Jobs.Status

  datatype Override = Override(url: string, reason: string)

  /** The URL parser: what a URL parses to, and its canonical form. `addresses` holds what parses, `canonical` what is http(s). */
  datatype Parser = Parser(addresses: map<string, string>, canonical: map<string, string>)

  function Canon(p: Parser, url: string): Option<string> {
    if url in p.canonical then Some(p.canonical[url]) else None
  }

  /** A canonical form is its own canonical form, and a matter of what the URL parses to. */
  ghost predicate Sane(p: Parser) {
    && (forall u :: u in p.canonical ==> Canon(p, p.canonical[u]) == Some(p.canonical[u]))
    && forall u, v :: u in p.addresses && v in p.addresses && p.addresses[u] == p.addresses[v] ==> Canon(p, u) == Canon(p, v)
  }

  datatype Batch = Batch(urls: seq<string>, overrides: seq<Override>, status: Status)

  /** A parsed submission: 1 to 1000 URLs, and overrides that name them, each once. */
  datatype Submission = Submission(urls: seq<string>, overrides: seq<Override>)

  ghost predicate ParsesAs(p: Parser, a: string, b: string) {
    a in p.addresses && b in p.addresses && p.addresses[a] == p.addresses[b]
  }

  ghost predicate Parsed(p: Parser, s: Submission) {
    && 1 <= |s.urls| <= MAX_URLS
    && (forall i :: 0 <= i < |s.urls| ==> s.urls[i] in p.addresses)
    && (forall i, j :: 0 <= i < j < |s.urls| ==> !ParsesAs(p, s.urls[i], s.urls[j]))
    && (forall k :: 0 <= k < |s.overrides| ==> exists i :: 0 <= i < |s.urls| && ParsesAs(p, s.overrides[k].url, s.urls[i]))
    && forall k, l :: 0 <= k < l < |s.overrides| ==> !ParsesAs(p, s.overrides[k].url, s.overrides[l].url)
  }

  predicate AllCanonical(p: Parser, urls: seq<string>) {
    && (forall i :: 0 <= i < |urls| ==> Canon(p, urls[i]).Some?)
    && forall i, j :: 0 <= i < j < |urls| ==> Canon(p, urls[i]) != Canon(p, urls[j])
  }

  predicate NamesOne(p: Parser, urls: seq<string>, o: Override) {
    exists i :: 0 <= i < |urls| && Canon(p, urls[i]) == Canon(p, o.url)
  }

  ghost predicate OverridesWell(p: Parser, urls: seq<string>, overrides: seq<Override>) {
    && (forall k :: 0 <= k < |overrides| ==> NamesOne(p, urls, overrides[k]))
    && forall k, l :: 0 <= k < l < |overrides| ==> Canon(p, overrides[k].url) != Canon(p, overrides[l].url)
  }

  /** A batch as stored: at most 1000 URLs, no page twice, each override for one of them and no two for the same. */
  ghost predicate Well(p: Parser, b: Batch) {
    1 <= |b.urls| <= MAX_URLS && AllCanonical(p, b.urls) && OverridesWell(p, b.urls, b.overrides)
  }

  datatype Refusal = NotUnique | TooMany | AlreadyIn(url: string) | Ended(status: Status)

  /** The first of the URLs that is in the list already. */
  function FirstRepeated(p: Parser, urls: seq<string>, present: set<Option<string>>): Option<string> {
    if urls == [] then None
    else if Canon(p, urls[0]) in present then Some(urls[0])
    else FirstRepeated(p, urls[1..], present)
  }

  function Pages(p: Parser, urls: seq<string>): set<Option<string>> {
    set i | 0 <= i < |urls| :: Canon(p, urls[i])
  }

  /** Why an append is refused; None when it is not. */
  function AppendRefusal(p: Parser, b: Batch, s: Submission): Option<Refusal> {
    if !AllCanonical(p, s.urls) then Some(NotUnique)
    else if |b.urls| + |s.urls| > MAX_URLS then Some(TooMany)
    else if FirstRepeated(p, s.urls, Pages(p, b.urls)).Some? then Some(AlreadyIn(FirstRepeated(p, s.urls, Pages(p, b.urls)).value))
    else if b.status.Cancelled? || b.status.Failed? then Some(Ended(b.status))
    else None
  }

  function Appended(b: Batch, s: Submission): Batch {
    Batch(b.urls + s.urls, b.overrides + s.overrides, if b.status.Completed? then Jobs.Pending else b.status)
  }

  class BatchStore {
    var batch: Batch

    /** A new batch's row. */
    constructor (s: Submission)
      ensures batch == Batch(s.urls, s.overrides, Jobs.Pending)
    {
      batch := Batch(s.urls, s.overrides, Jobs.Pending);
    }

    /** `appendToBatch`, as far as its checks and its write go. */
    method Append(p: Parser, s: Submission) returns (refusal: Option<Refusal>)
      modifies this
      ensures refusal == AppendRefusal(p, old(batch), s)
      ensures batch == if refusal.Some? then old(batch) else Appended(old(batch), s)
    {
      if !AllCanonical(p, s.urls) {
        return Some(NotUnique);
      }
      if |batch.urls| + |s.urls| > MAX_URLS {
        return Some(TooMany);
      }
      var present := Pages(p, batch.urls);
      for k := 0 to |s.urls|
        invariant FirstRepeated(p, s.urls, present) == FirstRepeated(p, s.urls[k..], present)
      {
        if Canon(p, s.urls[k]) in present {
          return Some(AlreadyIn(s.urls[k]));
        }
      }
      if batch.status.Cancelled? || batch.status.Failed? {
        return Some(Ended(batch.status));
      }
      batch := Batch(batch.urls + s.urls, batch.overrides + s.overrides, if batch.status.Completed? then Jobs.Pending else batch.status);
      refusal := None;
    }
  }

  // ---------------------------------------------------------------- the list

  lemma {:induction false} FirstRepeatedExactly(p: Parser, urls: seq<string>, present: set<Option<string>>)
    ensures FirstRepeated(p, urls, present).None? <==> forall i :: 0 <= i < |urls| ==> Canon(p, urls[i]) !in present
    ensures FirstRepeated(p, urls, present).Some? ==> FirstRepeated(p, urls, present).value in urls
  {
    if urls != [] {
      FirstRepeatedExactly(p, urls[1..], present);
      assert forall i :: 1 <= i < |urls| ==> urls[i] == urls[1..][i - 1];
    }
  }

  // A submission's overrides are for its own URLs, one each.
  lemma SubmittedOverrides(p: Parser, s: Submission)
    requires Sane(p) && Parsed(p, s) && AllCanonical(p, s.urls)
    ensures OverridesWell(p, s.urls, s.overrides)
  {
  }

  lemma StartedWell(p: Parser, s: Submission)
    requires Sane(p) && Parsed(p, s) && AllCanonical(p, s.urls)
    ensures Well(p, Batch(s.urls, s.overrides, Jobs.Pending))
  {
  }

  lemma NamesOneStill(p: Parser, a: seq<string>, b: seq<string>, o: Override)
    requires NamesOne(p, a, o) || NamesOne(p, b, o)
    ensures NamesOne(p, a + b, o)
  {
    if NamesOne(p, a, o) {
      var i :| 0 <= i < |a| && Canon(p, a[i]) == Canon(p, o.url);
      assert (a + b)[i] == a[i];
    } else {
      var i :| 0 <= i < |b| && Canon(p, b[i]) == Canon(p, o.url);
      assert (a + b)[|a| + i] == b[i];
    }
  }

  lemma JoinedOverrides(p: Parser, a: seq<string>, b: seq<string>, x: seq<Override>, y: seq<Override>)
    requires OverridesWell(p, a, x) && OverridesWell(p, b, y) && AllCanonical(p, a + b)
    ensures OverridesWell(p, a + b, x + y)
  {
    forall k | 0 <= k < |x + y| ensures NamesOne(p, a + b, (x + y)[k]) {
      NamesOneStill(p, a, b, (x + y)[k]);
    }
    forall k, l | 0 <= k < l < |x + y| ensures Canon(p, (x + y)[k].url) != Canon(p, (x + y)[l].url) {
      if k < |x| <= l {
        assert NamesOne(p, a, x[k]) && NamesOne(p, b, y[l - |x|]);
        var i :| 0 <= i < |a| && Canon(p, a[i]) == Canon(p, x[k].url);
        var j :| 0 <= j < |b| && Canon(p, b[j]) == Canon(p, y[l - |x|].url);
        assert Canon(p, (a + b)[i]) != Canon(p, (a + b)[|a| + j]);
      }
    }
  }

  lemma JoinedList(p: Parser, a: seq<string>, b: seq<string>)
    requires AllCanonical(p, a) && AllCanonical(p, b) && forall i :: 0 <= i < |b| ==> Canon(p, b[i]) !in Pages(p, a)
    ensures AllCanonical(p, a + b)
  {
  }

  // Every append keeps the old list as a prefix and the batch as stored: at most 1000 URLs, no page twice, overrides one to a page.
  lemma AppendKeeps(p: Parser, b: Batch, s: Submission)
    requires Sane(p) && Well(p, b) && Parsed(p, s) && AppendRefusal(p, b, s).None?
    ensures Well(p, Appended(b, s)) && b.urls <= Appended(b, s).urls && b.overrides <= Appended(b, s).overrides
  {
    FirstRepeatedExactly(p, s.urls, Pages(p, b.urls));
    JoinedList(p, b.urls, s.urls);
    SubmittedOverrides(p, s);
    JoinedOverrides(p, b.urls, s.urls, b.overrides, s.overrides);
  }

  /** Both URLs are http(s), and their canonical forms are the same. */
  predicate OnePage(p: Parser, a: string, b: string) {
    a in p.canonical && b in p.canonical && p.canonical[a] == p.canonical[b]
  }

  /** Every URL of the append is http(s), and no two are one page. */
  ghost predicate Unique(p: Parser, urls: seq<string>) {
    (forall i :: 0 <= i < |urls| ==> urls[i] in p.canonical) && forall i, j :: 0 <= i < j < |urls| ==> !OnePage(p, urls[i], urls[j])
  }

  ghost predicate Repeated(p: Parser, urls: seq<string>, u: string) {
    exists i :: 0 <= i < |urls| && OnePage(p, urls[i], u)
  }

  lemma PagesAre(p: Parser, urls: seq<string>, u: string)
    requires u in p.canonical
    ensures Canon(p, u) in Pages(p, urls) <==> Repeated(p, urls, u)
  {
    if Canon(p, u) in Pages(p, urls) {
      var i :| 0 <= i < |urls| && Canon(p, urls[i]) == Canon(p, u);
      assert OnePage(p, urls[i], u);
    }
  }

  // Each refusal has its own condition, in the order of the checks; none is met exactly when the append is written.
  lemma RefusedExactly(p: Parser, b: Batch, s: Submission)
    ensures var unique, room, ended := Unique(p, s.urls), |b.urls| + |s.urls| <= 1000, b.status == Jobs.Cancelled || b.status == Jobs.Failed;
      var repeated, refusal := exists i :: 0 <= i < |s.urls| && Repeated(p, b.urls, s.urls[i]), AppendRefusal(p, b, s);
      && (refusal == Some(NotUnique) <==> !unique)
      && (refusal == Some(TooMany) <==> unique && !room)
      && (refusal.Some? && refusal.value.AlreadyIn? <==> unique && room && repeated)
      && (refusal.Some? && refusal.value.AlreadyIn? ==> exists i :: FirstRepeat(p, b.urls, s.urls, i) && refusal.value.url == s.urls[i])
      && (refusal.Some? && refusal.value.Ended? <==> unique && room && !repeated && ended)
      && (refusal.None? <==> unique && room && !repeated && !ended)
  {
    assert AllCanonical(p, s.urls) <==> Unique(p, s.urls) by {
      UniqueIs(p, s.urls);
    }
    if AllCanonical(p, s.urls) {
      RepeatsAre(p, b.urls, s.urls);
    }
  }

  lemma UniqueIs(p: Parser, urls: seq<string>)
    ensures AllCanonical(p, urls) <==> Unique(p, urls)
  {
    if Unique(p, urls) {
      forall i, j | 0 <= i < j < |urls| ensures Canon(p, urls[i]) != Canon(p, urls[j]) {
        assert !OnePage(p, urls[i], urls[j]);
      }
    }
  }

  lemma {:induction false} RepeatsAre(p: Parser, urls: seq<string>, more: seq<string>)
    requires forall i :: 0 <= i < |more| ==> more[i] in p.canonical
    ensures var first := FirstRepeated(p, more, Pages(p, urls));
      && (first.Some? <==> exists i :: 0 <= i < |more| && Repeated(p, urls, more[i]))
      && (first.Some? ==> exists i :: FirstRepeat(p, urls, more, i) && first.value == more[i])
  {
    if more != [] {
      PagesAre(p, urls, more[0]);
      var first, rest := FirstRepeated(p, more, Pages(p, urls)), more[1..];
      if Canon(p, more[0]) in Pages(p, urls) {
        assert FirstRepeat(p, urls, more, 0);
      } else {
        RepeatsAre(p, urls, rest);
        assert forall i :: 1 <= i < |more| ==> more[i] == rest[i - 1];
        if first.Some? {
          var i :| FirstRepeat(p, urls, rest, i) && first.value == rest[i];
          assert FirstRepeat(p, urls, more, i + 1);
        }
      }
    }
  }

  /** The first of the URLs whose page is in the list. */
  ghost predicate FirstRepeat(p: Parser, urls: seq<string>, more: seq<string>, i: int) {
    0 <= i < |more| && Repeated(p, urls, more[i]) && forall j :: 0 <= j < i ==> !Repeated(p, urls, more[j])
  }

  // A retry of an append that was written never puts a URL into the list twice: it is refused, whatever came since.
  lemma RetryRefused(p: Parser, b: Batch, s: Submission, later: Batch)
    requires Parsed(p, s) && AppendRefusal(p, b, s).None? && Appended(b, s).urls <= later.urls
    ensures AppendRefusal(p, later, s).Some? && (AppendRefusal(p, later, s).value.TooMany? || AppendRefusal(p, later, s).value == AlreadyIn(s.urls[0]))
  {
    assert later.urls[|b.urls|] == Appended(b, s).urls[|b.urls|] == s.urls[0];
    assert Canon(p, s.urls[0]) in Pages(p, later.urls);
  }

  // ---------------------------------------------------------------- the same append, by canonical forms

  /** The list as the jobs' model has it. */
  function Forms(p: Parser, urls: seq<string>): (forms: seq<string>)
    requires AllCanonical(p, urls)
    ensures |forms| == |urls| && forall i :: 0 <= i < |urls| ==> Canon(p, urls[i]) == Some(forms[i])
  {
    seq(|urls|, i requires 0 <= i < |urls| => Canon(p, urls[i]).value)
  }

  /** The task is this batch, its list in canonical forms. */
  ghost predicate IsJob(p: Parser, b: Batch, t: Jobs.Task) {
    AllCanonical(p, b.urls) && t.kind == Jobs.Batch(Forms(p, b.urls)) && t.status == b.status
  }

  lemma FormsValid(p: Parser, urls: seq<string>)
    requires AllCanonical(p, urls) && 1 <= |urls| <= MAX_URLS
    ensures Jobs.ValidList(Forms(p, urls))
  {
    var forms := Forms(p, urls);
    forall i, j | 0 <= i < j < |forms| ensures forms[i] != forms[j] {
      assert Canon(p, urls[i]) == Some(forms[i]) && Canon(p, urls[j]) == Some(forms[j]);
    }
  }

  lemma RepeatsAgree(p: Parser, urls: seq<string>, more: seq<string>)
    requires AllCanonical(p, urls) && AllCanonical(p, more)
    ensures FirstRepeated(p, more, Pages(p, urls)).None? <==> forall u :: u in Forms(p, more) ==> u !in Forms(p, urls)
  {
    FirstRepeatedExactly(p, more, Pages(p, urls));
    var a, b := Forms(p, urls), Forms(p, more);
    forall i | 0 <= i < |b| ensures b[i] in a <==> Canon(p, more[i]) in Pages(p, urls) {
      if b[i] in a {
        var j :| 0 <= j < |a| && a[j] == b[i];
        assert Canon(p, urls[j]) == Canon(p, more[i]);
      }
      if Canon(p, more[i]) in Pages(p, urls) {
        var j :| 0 <= j < |urls| && Canon(p, urls[j]) == Canon(p, more[i]);
        assert a[j] == b[i];
      }
    }
    assert forall i :: 0 <= i < |b| ==> b[i] in b;
  }

  // An append is accepted here exactly when it is in the jobs' model, and grows the same job.
  lemma AppendIsTheJobs(p: Parser, b: Batch, s: Submission, t: Jobs.Task)
    requires IsJob(p, b, t) && Parsed(p, s) && AllCanonical(p, s.urls)
    ensures AppendRefusal(p, b, s).None? <==> Jobs.Appendable(t, Forms(p, s.urls))
    ensures AppendRefusal(p, b, s).None? ==> IsJob(p, Appended(b, s), Jobs.Extend(t, Forms(p, s.urls), b.status.Completed?))
  {
    FormsValid(p, s.urls);
    RepeatsAgree(p, b.urls, s.urls);
    if AppendRefusal(p, b, s).None? {
      FirstRepeatedExactly(p, s.urls, Pages(p, b.urls));
      JoinedList(p, b.urls, s.urls);
      assert Forms(p, b.urls + s.urls) == Forms(p, b.urls) + Forms(p, s.urls);
    }
  }

  // ---------------------------------------------------------------- the lookup

  /** The table the lookup is made from: each override under its URL as sent and under its canonical form. */
  method TableOf(p: Parser, overrides: seq<Override>) returns (byUrl: map<string, Override>)
    ensures TableWell(p, overrides, byUrl)
  {
    byUrl := map[];
    for k := 0 to |overrides|
      invariant TableWell(p, overrides[..k], byUrl)
    {
      assert overrides[..k + 1] == overrides[..k] + [overrides[k]];
      byUrl := byUrl[overrides[k].url := overrides[k]];
      if Canon(p, overrides[k].url).Some? {
        byUrl := byUrl[Canon(p, overrides[k].url).value := overrides[k]];
      }
    }
    assert overrides[..|overrides|] == overrides;
  }

  predicate Under(p: Parser, key: string, o: Override) {
    key == o.url || Canon(p, o.url) == Some(key)
  }

  /** Each key holds an override filed under it, and each override's keys are in the table. */
  ghost predicate TableWell(p: Parser, overrides: seq<Override>, byUrl: map<string, Override>) {
    && (forall key :: key in byUrl ==> byUrl[key] in overrides && Under(p, key, byUrl[key]))
    && forall o, key :: o in overrides && Under(p, key, o) ==> key in byUrl
  }

  function Lookup(p: Parser, byUrl: map<string, Override>, url: string): Option<Override> {
    if url in byUrl then Some(byUrl[url])
    else
      var key := if Canon(p, url).Some? then Canon(p, url).value else url;
      if key in byUrl then Some(byUrl[key]) else None
  }

  // A URL's override is the one that names its page, however either is spelled, and a URL whose page none names has none.
  lemma LookupExactly(p: Parser, b: Batch, byUrl: map<string, Override>, url: string, o: Override)
    requires Sane(p) && Well(p, b) && TableWell(p, b.overrides, byUrl)
    ensures Lookup(p, byUrl, url) == Some(o) <==> o in b.overrides && OnePage(p, url, o.url)
  {
    if o in b.overrides {
      assert NamesOne(p, b.urls, o);
    }
  }

  lemma OldOverride(p: Parser, b: Batch, s: Submission, o: Override, url: string)
    requires OverridesWell(p, s.urls, s.overrides) && o in b.overrides + s.overrides
    requires Canon(p, url) == Canon(p, o.url) && Canon(p, url) !in Pages(p, s.urls)
    ensures o in b.overrides
  {
  }

  // An append gives its own URLs their overrides and changes no other URL's, the old ones among them.
  lemma AppendIsolated(p: Parser, b: Batch, s: Submission, before: map<string, Override>, after: map<string, Override>, url: string)
    requires Sane(p) && Well(p, b) && Parsed(p, s) && AppendRefusal(p, b, s).None?
    requires TableWell(p, b.overrides, before) && TableWell(p, Appended(b, s).overrides, after)
    requires Canon(p, url) !in Pages(p, s.urls)
    ensures Lookup(p, after, url) == Lookup(p, before, url)
  {
    AppendKeeps(p, b, s);
    SubmittedOverrides(p, s);
    var was, now := Lookup(p, before, url), Lookup(p, after, url);
    if was.Some? {
      LookupExactly(p, b, before, url, was.value);
      LookupExactly(p, Appended(b, s), after, url, was.value);
    }
    if now.Some? {
      LookupExactly(p, Appended(b, s), after, url, now.value);
      OldOverride(p, b, s, now.value, url);
      LookupExactly(p, b, before, url, now.value);
    }
  }
}
