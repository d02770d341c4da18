/**
 * Handing one page to a person in their own Chrome: the polling loop that decides when, and whether, the page in
 * the tab is read. What the browser answers and the events it sends are inputs, poll by poll; the gate
 * classifier, the login-path test, the host test and the URL parser are parameters.
 */
module ChromeHandoff {
  import opened Options

  const CLEAR_READS := 3
  const RETURNS := 2

  datatype Document = Document(url: string, status: int, headers: map<string, string>)

  datatype Page = Page(href: string, complete: bool, status: Option<int>, html: string, secret: bool, field: Option<string>)

  /**
   * One turn of the loop, after its sleep. `documents`: the main document's responses heard since the turn before, up to
   * the moment the page is judged. `gesture`: a navigation Chrome marks as the person's was heard meanwhile. `active`:
   * the document's user activation, as W2L's own world in the page reads it.
   */
  datatype Poll =
    | Cancelled
    | Gone(documents: seq<Document>, gesture: bool)
    | Unreadable(documents: seq<Document>, gesture: bool)
    | Shown(documents: seq<Document>, gesture: bool, page: Page, active: bool)

  datatype Address = Address(host: string, path: string, query: string)

  /**
   * What the URL parser, the host test, the login-path test and the gate classifier answer, as tables: an address
   * parses when it is in `addresses`, a page shows a check when it is in `gates`. A wait asks finitely many of them.
   */
  datatype Web = Web(
    addresses: map<string, Address>,
    covers: set<(string, string)>,
    loginPaths: set<string>,
    gates: map<(int, Option<Document>, string), string>)

  datatype Why = WasCancelled | TabGone | Elsewhere | TimedOut

  datatype Outcome =
    | Read(at: nat, finalUrl: string, status: Option<int>, html: string)
    | NotThrough(at: nat, why: Why)

  // ---------------------------------------------------------------- addresses

  function StripSlashes(path: string): string {
    if path != "" && path[|path| - 1] == '/' then StripSlashes(path[..|path| - 1]) else path
  }

  function PageOf(web: Web, href: string): string {
    if href !in web.addresses then href
    else
      var path := StripSlashes(web.addresses[href].path);
      (if path == "" then "/" else path) + web.addresses[href].query
  }

  function BeforeHash(href: string): string {
    if href == "" || href[0] == '#' then "" else [href[0]] + BeforeHash(href[1..])
  }

  predicate SameDocument(a: string, b: string) {
    BeforeHash(a) == BeforeHash(b)
  }

  predicate SameSite(web: Web, href: string, asked: string) {
    && href in web.addresses && asked in web.addresses
    && ((web.addresses[href].host, web.addresses[asked].host) in web.covers || (web.addresses[asked].host, web.addresses[href].host) in web.covers)
  }

  predicate OnLoginPath(web: Web, href: string, asked: string) {
    && href in web.addresses && asked in web.addresses
    && web.addresses[href].path in web.loginPaths && web.addresses[asked].path !in web.loginPaths
  }

  // ---------------------------------------------------------------- what an address means

  /** `t` is the address without its fragment. */
  ghost predicate UpToFragment(s: string, t: string) {
    t <= s && '#' !in t && (t == s || s[|t|] == '#')
  }

  ghost predicate SameButFragment(a: string, b: string) {
    exists t :: UpToFragment(a, t) && UpToFragment(b, t)
  }

  /** `t` is the path without the slashes at its end. */
  ghost predicate WithoutSlashes(path: string, t: string) {
    t <= path && (t == "" || t[|t| - 1] != '/') && forall i :: |t| <= i < |path| ==> path[i] == '/'
  }

  /** The page an address names, on whichever host: its path without the slashes at its end, and its query. */
  ghost predicate Names(web: Web, href: string, name: string) {
    if href !in web.addresses then name == href
    else exists t :: WithoutSlashes(web.addresses[href].path, t) && name == (if t == "" then "/" else t) + web.addresses[href].query
  }

  ghost predicate SamePage(web: Web, a: string, b: string) {
    exists name :: Names(web, a, name) && Names(web, b, name)
  }

  lemma {:induction false} BeforeHashIs(s: string)
    ensures UpToFragment(s, BeforeHash(s))
  {
    if s != "" && s[0] != '#' {
      BeforeHashIs(s[1..]);
      var t := BeforeHash(s[1..]);
      assert s == [s[0]] + s[1..] && [s[0]] + t <= s;
      assert t != s[1..] ==> s[|t| + 1] == s[1..][|t|];
    }
  }

  lemma OneUpToFragment(s: string, t: string, u: string)
    requires UpToFragment(s, t) && UpToFragment(s, u)
    ensures t == u
  {
    assert t == s[..|t|] && u == s[..|u|];
    assert forall i :: 0 <= i < |t| ==> t[i] in t && s[i] != '#';
    assert forall i :: 0 <= i < |u| ==> u[i] in u && s[i] != '#';
  }

  lemma SameDocumentIs(a: string, b: string)
    ensures SameDocument(a, b) <==> SameButFragment(a, b)
  {
    BeforeHashIs(a);
    BeforeHashIs(b);
    if SameButFragment(a, b) {
      var t :| UpToFragment(a, t) && UpToFragment(b, t);
      OneUpToFragment(a, t, BeforeHash(a));
      OneUpToFragment(b, t, BeforeHash(b));
    }
  }

  lemma {:induction false} StripSlashesIs(path: string)
    ensures WithoutSlashes(path, StripSlashes(path))
  {
    if path != "" && path[|path| - 1] == '/' {
      StripSlashesIs(path[..|path| - 1]);
    }
  }

  lemma OneWithoutSlashes(path: string, t: string, u: string)
    requires WithoutSlashes(path, t) && WithoutSlashes(path, u)
    ensures t == u
  {
    assert t == path[..|t|] && u == path[..|u|];
    assert t != "" ==> path[|t| - 1] != '/';
    assert u != "" ==> path[|u| - 1] != '/';
  }

  lemma PageOfIs(web: Web, href: string)
    ensures Names(web, href, PageOf(web, href))
    ensures forall name :: Names(web, href, name) ==> name == PageOf(web, href)
  {
    if href in web.addresses {
      var path := web.addresses[href].path;
      StripSlashesIs(path);
      forall t | WithoutSlashes(path, t) ensures t == StripSlashes(path) {
        OneWithoutSlashes(path, t, StripSlashes(path));
      }
    }
  }

  // Two addresses name one page exactly when the loop's form of them is the same.
  lemma PagesCompared(web: Web, a: string, b: string)
    ensures PageOf(web, a) == PageOf(web, b) <==> SamePage(web, a, b)
  {
    PageOfIs(web, a);
    PageOfIs(web, b);
  }

  // ---------------------------------------------------------------- the history

  function DocumentsOf(p: Poll): seq<Document> {
    if p.Cancelled? then [] else p.documents
  }

  /** Every main document heard in the first `n` polls, in order. */
  function Documents(polls: seq<Poll>, n: nat): seq<Document>
    requires n <= |polls|
  {
    if n == 0 then [] else Documents(polls, n - 1) + DocumentsOf(polls[n - 1])
  }

  /** The person acted in the tab in this poll, in a way a page's own script cannot. */
  predicate Acts(p: Poll) {
    !p.Cancelled? && (p.gesture || (p.Shown? && p.active))
  }

  ghost predicate ActHeard(polls: seq<Poll>, n: nat) {
    exists j :: 0 <= j < n && j < |polls| && Acts(polls[j])
  }

  /** The field in focus at the last of the first `n` polls that showed the page; None before there was one. */
  function LastField(polls: seq<Poll>, n: nat): Option<Option<string>>
    requires n <= |polls|
  {
    if n == 0 then None
    else if polls[n - 1].Shown? then Some(polls[n - 1].page.field)
    else LastField(polls, n - 1)
  }

  /** What one call asks for: the judge, the URL, and whether the connection has events at all. */
  datatype Ask = Ask(web: Web, url: string, listens: bool)

  function Last(heard: seq<Document>): Option<Document> {
    if heard == [] then None else Some(heard[|heard| - 1])
  }

  /** How many documents had been heard when each return was made. */
  function Marks(polls: seq<Poll>, rets: seq<nat>): seq<nat> {
    if rets == [] then [] else Marks(polls, rets[..|rets| - 1]) + [HeardBy(polls, rets[|rets| - 1])]
  }

  function LastMark(polls: seq<Poll>, rets: seq<nat>): Option<nat> {
    if rets == [] then None else Some(HeardBy(polls, rets[|rets| - 1]))
  }

  function HeardBy(polls: seq<Poll>, r: nat): nat {
    if r < |polls| then |Documents(polls, r + 1)| else |Documents(polls, |polls|)|
  }

  /** The response of the document shown at poll `k`: the last one heard by then, when its address is the tab's but for the fragment. */
  ghost function OwnResponse(polls: seq<Poll>, k: nat): Option<Document>
    requires k < |polls| && polls[k].Shown?
  {
    var heard := Documents(polls, k + 1);
    if heard != [] && SameButFragment(heard[|heard| - 1].url, polls[k].page.href) then Some(heard[|heard| - 1]) else None
  }

  /** The status of the page shown at poll `k`: its own response's, else what the page reports. */
  ghost function StatusAt(polls: seq<Poll>, k: nat): Option<int>
    requires k < |polls| && polls[k].Shown?
  {
    if OwnResponse(polls, k).Some? then Some(OwnResponse(polls, k).value.status) else polls[k].page.status
  }

  /** A check shows on the page at poll `k`: the classifier gives its status (200 when unknown), response and text a gate. */
  ghost predicate Checked(ask: Ask, polls: seq<Poll>, k: nat)
    requires k < |polls|
  {
    && polls[k].Shown?
    && (if StatusAt(polls, k).Some? then StatusAt(polls, k).value else 200, OwnResponse(polls, k), polls[k].page.html) in ask.web.gates
  }

  /** Both addresses parse, and one's host covers the other's. */
  ghost predicate OnSite(web: Web, href: string, asked: string) {
    href in web.addresses && asked in web.addresses &&
    ((web.addresses[href].host, web.addresses[asked].host) in web.covers || (web.addresses[asked].host, web.addresses[href].host) in web.covers)
  }

  /** The page is on a login path, and the URL asked for is not. */
  ghost predicate AtLogin(web: Web, href: string, asked: string) {
    href in web.addresses && asked in web.addresses && web.addresses[href].path in web.loginPaths && web.addresses[asked].path !in web.loginPaths
  }

  /** A field is in focus at poll `k`, and what it holds has changed since the poll before that showed the page. */
  ghost predicate FieldChanged(polls: seq<Poll>, k: nat)
    requires k < |polls| && polls[k].Shown?
  {
    polls[k].page.field.Some? && exists j: nat :: LastShown(polls, k, j) && polls[j].page.field != polls[k].page.field
  }

  /** Poll `j` is the last before `k` that showed the page. */
  ghost predicate LastShown(polls: seq<Poll>, k: nat, j: nat) {
    j < k <= |polls| && polls[j].Shown? && forall i :: j < i < k ==> !polls[i].Shown?
  }

  /** The page shown at poll `k` is through: loaded, no check, answered 2xx, on the site, at no sign-in step. */
  ghost predicate PageThrough(ask: Ask, polls: seq<Poll>, k: nat)
    requires k < |polls|
  {
    && polls[k].Shown? && polls[k].page.complete && !Checked(ask, polls, k)
    && (StatusAt(polls, k).None? || 200 <= StatusAt(polls, k).value < 300)
    && OnSite(ask.web, polls[k].page.href, ask.url) && !AtLogin(ask.web, polls[k].page.href, ask.url)
    && !polls[k].page.secret
  }

  /** ... and so is the moment: the person is not typing, and since the last return, if there is one and events are heard, a document has come. */
  ghost predicate Through(ask: Ask, polls: seq<Poll>, k: nat, rets: seq<nat>)
    requires k < |polls|
  {
    && PageThrough(ask, polls, k) && !FieldChanged(polls, k)
    && (rets == [] || !ask.listens || |Documents(polls, k + 1)| > HeardBy(polls, rets[|rets| - 1]))
  }

  /** The page at poll `k` is the one asked for, or the first document heard after a return. */
  ghost predicate Asked(ask: Ask, polls: seq<Poll>, k: nat, rets: seq<nat>)
    requires k < |polls|
  {
    && polls[k].Shown?
    && (SamePage(ask.web, polls[k].page.href, ask.url)
      || exists m: nat :: ReturnLanded(polls, k, rets, m) && SamePage(ask.web, polls[k].page.href, Documents(polls, k + 1)[m].url))
  }

  /** Document `m`, heard by poll `k`, was the first after a return. */
  ghost predicate ReturnLanded(polls: seq<Poll>, k: nat, rets: seq<nat>, m: nat)
    requires k < |polls|
  {
    m < |Documents(polls, k + 1)| && exists r :: r in rets && m == HeardBy(polls, r)
  }

  lemma {:induction false} MarksAre(polls: seq<Poll>, rets: seq<nat>)
    ensures forall m :: m in Marks(polls, rets) <==> exists r :: r in rets && m == HeardBy(polls, r)
  {
    if rets != [] {
      MarksAre(polls, rets[..|rets| - 1]);
      assert rets == rets[..|rets| - 1] + [rets[|rets| - 1]];
    }
  }

  predicate Ends(p: Poll) {
    p.Cancelled? || p.Gone?
  }

  /** What the polls say, poll by poll, given the returns made. */
  datatype View = View(
    size: nat, through: (int, seq<nat>) -> bool, asked: (int, seq<nat>) -> bool, checked: int -> bool, acted: int -> bool, ends: int -> bool,
    status: int -> Option<int>)

  ghost function ViewOf(ask: Ask, polls: seq<Poll>): View {
    View(|polls|,
      (k, rets) => 0 <= k < |polls| && Through(ask, polls, k, rets),
      (k, rets) => 0 <= k < |polls| && Asked(ask, polls, k, rets),
      k => 0 <= k < |polls| && Checked(ask, polls, k),
      k => 0 <= k < |polls| && ActHeard(polls, k + 1),
      k => 0 <= k < |polls| && Ends(polls[k]),
      k => if 0 <= k < |polls| && polls[k].Shown? then StatusAt(polls, k) else None)
  }

  ghost predicate Views(v: View, ask: Ask, polls: seq<Poll>) {
    v.size == |polls| && forall k: nat, rets :: Viewed(v, ask, polls, k, rets)
  }

  ghost predicate Viewed(v: View, ask: Ask, polls: seq<Poll>, k: nat, rets: seq<nat>) {
    k < |polls| ==>
      && v.through(k, rets) == Through(ask, polls, k, rets) && v.asked(k, rets) == Asked(ask, polls, k, rets)
      && v.checked(k) == Checked(ask, polls, k) && v.acted(k) == ActHeard(polls, k + 1) && v.ends(k) == Ends(polls[k])
      && (polls[k].Shown? ==> v.status(k) == StatusAt(polls, k))
  }

  lemma ViewIs(ask: Ask, polls: seq<Poll>)
    ensures Views(ViewOf(ask, polls), ask, polls)
  {
  }

  /** The first poll after the last return. */
  function AfterReturns(rets: seq<nat>): nat {
    if rets == [] then 0 else rets[|rets| - 1] + 1
  }

  /** Three polls in a row, `k` the last of them and all since the last return, were through. */
  ghost predicate Clear(v: View, k: nat, rets: seq<nat>) {
    AfterReturns(rets) + 2 <= k && v.through(k - 2, rets) && v.through(k - 1, rets) && v.through(k, rets)
  }

  ghost predicate Ready(v: View, k: nat, rets: seq<nat>) {
    Clear(v, k, rets) && v.acted(k)
  }

  /** Since the last return, up to poll `k`, no poll was ready and none ended the wait. */
  ghost predicate Undecided(v: View, k: nat, rets: seq<nat>) {
    AfterReturns(rets) <= k <= v.size && forall j: nat :: AfterReturns(rets) <= j < k ==> !Ready(v, j, rets) && !v.ends(j)
  }

  /** Poll `k` is the first ready one since the last return. */
  ghost predicate FirstReady(v: View, k: nat, rets: seq<nat>) {
    k < v.size && Undecided(v, k, rets) && Ready(v, k, rets)
  }

  /** Return `m` was made at the first ready poll after the one before it, the page shown there not the one asked for. */
  ghost predicate ReturnMade(v: View, rets: seq<nat>, m: nat)
    requires m < |rets|
  {
    FirstReady(v, rets[m], rets[..m]) && !v.asked(rets[m], rets[..m])
  }

  ghost predicate ReturnsMade(v: View, rets: seq<nat>) {
    |rets| <= 2 && forall m :: 0 <= m < |rets| ==> ReturnMade(v, rets, m)
  }

  ghost predicate SaysIn(v: View, polls: seq<Poll>, rets: seq<nat>, out: Outcome) {
    ReturnsMade(v, rets) &&
    match out
    case Read(k, finalUrl, status, html) =>
      && FirstReady(v, k, rets) && v.asked(k, rets)
      && k < |polls| && polls[k].Shown? && finalUrl == polls[k].page.href && html == polls[k].page.html && status == v.status(k)
    case NotThrough(k, why) =>
      match why
      case Elsewhere => |rets| == 2 && FirstReady(v, k, rets) && !v.asked(k, rets) && k < |polls| && polls[k].Shown?
      case WasCancelled => Undecided(v, k, rets) && k < |polls| && polls[k].Cancelled?
      case TabGone => Undecided(v, k, rets) && k < |polls| && polls[k].Gone?
      case TimedOut => Undecided(v, k, rets) && k == |polls|
  }

  /** What a history of polls says the call comes to. */
  ghost predicate Says(ask: Ask, polls: seq<Poll>, rets: seq<nat>, out: Outcome) {
    SaysIn(ViewOf(ask, polls), polls, rets, out)
  }

  // ---------------------------------------------------------------- the loop

  function LandingPages(web: Web, heard: seq<Document>, marks: seq<nat>): set<string> {
    set m | m in marks && m < |heard| :: PageOf(web, heard[m].url)
  }

  /** What the listeners have heard: written by the events, read by the loop. */
  datatype Heard = Heard(document: Option<Document>, act: bool, ours: bool, landings: set<string>, documents: nat)

  /** The record of a history: the documents heard, whether the person acted, and the marks of the returns made. */
  ghost predicate Records(web: Web, heard: Heard, documents: seq<Document>, acted: bool, marks: seq<nat>) {
    && heard.document == Last(documents) && heard.documents == |documents| && heard.act == acted
    && heard.landings == LandingPages(web, documents, marks)
    && (heard.ours <==> marks != [] && marks[|marks| - 1] == |documents|)
  }

  ghost predicate MarksBelow(marks: seq<nat>, documents: nat) {
    forall m :: m in marks ==> m <= documents && m <= marks[|marks| - 1]
  }

  // One more document is the landing of every return still waiting for one.
  lemma LandingStep(web: Web, documents: seq<Document>, marks: seq<nat>, d: Document)
    requires MarksBelow(marks, |documents|)
    ensures LandingPages(web, documents + [d], marks) ==
      LandingPages(web, documents, marks) + if marks != [] && marks[|marks| - 1] == |documents| then {PageOf(web, d.url)} else {}
  {
    var now := documents + [d];
    assert forall m :: 0 <= m < |documents| ==> now[m] == documents[m];
    assert now[|documents|] == d;
    assert marks != [] ==> marks[|marks| - 1] in marks;
  }

  /** The listeners of one turn, in the order the documents came. */
  method Hear(web: Web, before: Heard, came: seq<Document>, gesture: bool, ghost documents: seq<Document>, ghost acted: bool, ghost marks: seq<nat>) returns (heard: Heard)
    requires Records(web, before, documents, acted, marks) && MarksBelow(marks, |documents|)
    ensures Records(web, heard, documents + came, acted || gesture, marks) && MarksBelow(marks, |documents + came|)
  {
    heard := before.(act := before.act || gesture);
    assert marks != [] ==> marks[|marks| - 1] in marks;
    assert documents + came[..0] == documents;
    for k := 0 to |came|
      invariant Records(web, heard, documents + came[..k], acted || gesture, marks)
    {
      LandingStep(web, documents + came[..k], marks, came[k]);
      assert documents + came[..k + 1] == documents + came[..k] + [came[k]];
      heard := heard.(documents := heard.documents + 1, document := Some(came[k]));
      if heard.ours {
        heard := heard.(landings := heard.landings + {PageOf(web, came[k].url)}, ours := false);
      }
    }
    assert came[..|came|] == came;
  }

  /** How many polls in a row before poll `i`, all since the last return, were through. */
  ghost predicate RunLength(v: View, i: nat, rets: seq<nat>, clear: nat) {
    && i <= v.size && AfterReturns(rets) + clear <= i
    && (forall j :: i - clear <= j < i ==> v.through(j, rets))
    && (AfterReturns(rets) + clear == i || !v.through(i - clear - 1, rets))
  }

  function CountRun(through: bool, clear: nat): nat {
    if through then clear + 1 else 0
  }

  // The counter reaches three exactly at a clear poll.
  lemma RunLengthDecides(v: View, i: nat, rets: seq<nat>, clear: nat)
    requires i < v.size && RunLength(v, i, rets, clear)
    ensures RunLength(v, i + 1, rets, CountRun(v.through(i, rets), clear)) && (Clear(v, i, rets) <==> CountRun(v.through(i, rets), clear) >= CLEAR_READS)
  {
  }

  /** The first poll of the wait that showed a check, told to the caller once. */
  ghost predicate FirstCheck(v: View, upto: nat, told: Option<nat>) {
    upto <= v.size &&
    match told
    case Some(k) => k < upto && v.checked(k) && forall j :: 0 <= j < k ==> !v.checked(j)
    case None => forall j :: 0 <= j < upto ==> !v.checked(j)
  }

  /** The page was clear at poll `k`, and the person had not acted in the tab by then. No return is made before they act. */
  ghost predicate Confirms(v: View, k: nat) {
    Clear(v, k, []) && !v.acted(k)
  }

  /** The first such poll of the wait, when the caller is asked, once, for the person's click. */
  ghost predicate FirstConfirm(v: View, upto: nat, confirmed: Option<nat>) {
    match confirmed
    case Some(k) => k < upto && Confirms(v, k) && forall j: nat :: j < k ==> !Confirms(v, j)
    case None => forall j: nat :: j < upto ==> !Confirms(v, j)
  }

  // ---------------------------------------------------------------- the loop's judgement of one page

  function Responded(last: Option<Document>, page: Page): Option<Document> {
    if last.Some? && SameDocument(last.value.url, page.href) then last else None
  }

  function StatusOf(response: Option<Document>, page: Page): Option<int> {
    if response.Some? then Some(response.value.status) else page.status
  }

  predicate Gated(ask: Ask, response: Option<Document>, page: Page) {
    var status := StatusOf(response, page);
    (if status.Some? then status.value else 200, response, page.html) in ask.web.gates
  }

  predicate Typing(before: Option<Option<string>>, now: Option<string>) {
    now.Some? && before.Some? && before.value != now
  }

  predicate PageClear(ask: Ask, response: Option<Document>, page: Page) {
    var status := StatusOf(response, page);
    && page.complete && !Gated(ask, response, page)
    && (status.None? || 200 <= status.value < 300)
    && SameSite(ask.web, page.href, ask.url) && !OnLoginPath(ask.web, page.href, ask.url)
    && !page.secret
  }

  /** What one poll that showed the page comes to. */
  datatype Verdict = Verdict(through: bool, asked: bool, checked: bool, status: Option<int>)

  /** The judgement of the page shown, from what has been heard and what the loop remembers. */
  function Judge(ask: Ask, heard: Heard, page: Page, field: Option<Option<string>>, mark: Option<nat>): Verdict {
    var response := Responded(heard.document, page);
    var arrived := mark.None? || !ask.listens || heard.documents > mark.value;
    Verdict(PageClear(ask, response, page) && !Typing(field, page.field) && arrived,
      PageOf(ask.web, page.href) == PageOf(ask.web, ask.url) || PageOf(ask.web, page.href) in heard.landings,
      Gated(ask, response, page), StatusOf(response, page))
  }

  lemma {:induction false} LastFieldIs(polls: seq<Poll>, n: nat)
    requires n <= |polls|
    ensures LastField(polls, n).None? ==> forall j :: 0 <= j < n ==> !polls[j].Shown?
    ensures LastField(polls, n).Some? ==> exists j: nat :: LastShown(polls, n, j) && Some(polls[j].page.field) == LastField(polls, n)
    decreases n
  {
    if n > 0 {
      if polls[n - 1].Shown? {
        assert LastShown(polls, n, n - 1);
      } else {
        LastFieldIs(polls, n - 1);
        if LastField(polls, n).Some? {
          var j: nat :| LastShown(polls, n - 1, j) && Some(polls[j].page.field) == LastField(polls, n);
          assert LastShown(polls, n, j);
        }
      }
    }
  }

  lemma TypingIs(polls: seq<Poll>, k: nat)
    requires k < |polls| && polls[k].Shown?
    ensures Typing(LastField(polls, k), polls[k].page.field) <==> FieldChanged(polls, k)
  {
    LastFieldIs(polls, k);
    if LastField(polls, k).Some? {
      var j: nat :| LastShown(polls, k, j) && Some(polls[j].page.field) == LastField(polls, k);
      assert forall i: nat :: LastShown(polls, k, i) ==> i == j;
    }
  }

  lemma ClearIs(ask: Ask, polls: seq<Poll>, k: nat, response: Option<Document>)
    requires k < |polls| && polls[k].Shown? && response == OwnResponse(polls, k)
    ensures StatusOf(response, polls[k].page) == StatusAt(polls, k)
    ensures Gated(ask, response, polls[k].page) <==> Checked(ask, polls, k)
    ensures PageClear(ask, response, polls[k].page) <==> PageThrough(ask, polls, k)
  {
  }

  lemma AskedIs(ask: Ask, polls: seq<Poll>, k: nat, rets: seq<nat>, landings: set<string>)
    requires k < |polls| && polls[k].Shown? && landings == LandingPages(ask.web, Documents(polls, k + 1), Marks(polls, rets))
    ensures PageOf(ask.web, polls[k].page.href) == PageOf(ask.web, ask.url) || PageOf(ask.web, polls[k].page.href) in landings <==> Asked(ask, polls, k, rets)
  {
    var href, heard := polls[k].page.href, Documents(polls, k + 1);
    MarksAre(polls, rets);
    PagesCompared(ask.web, href, ask.url);
    forall m | 0 <= m < |heard| ensures PageOf(ask.web, href) == PageOf(ask.web, heard[m].url) <==> SamePage(ask.web, href, heard[m].url) {
      PagesCompared(ask.web, href, heard[m].url);
    }
    if PageOf(ask.web, href) in landings {
      var m :| m in Marks(polls, rets) && m < |heard| && PageOf(ask.web, heard[m].url) == PageOf(ask.web, href);
      assert ReturnLanded(polls, k, rets, m);
    }
  }

  // What the loop judges of a page is what the history says of it.
  lemma JudgesTheHistory(ask: Ask, heard: Heard, polls: seq<Poll>, i: nat, rets: seq<nat>, acted: bool)
    requires i < |polls| && polls[i].Shown? && Records(ask.web, heard, Documents(polls, i + 1), acted, Marks(polls, rets))
    ensures var verdict := Judge(ask, heard, polls[i].page, LastField(polls, i), LastMark(polls, rets));
      Judges(ask, polls, i, rets, verdict)
  {
    var documents := Documents(polls, i + 1);
    if documents != [] {
      SameDocumentIs(documents[|documents| - 1].url, polls[i].page.href);
    }
    ClearIs(ask, polls, i, Responded(heard.document, polls[i].page));
    TypingIs(polls, i);
    AskedIs(ask, polls, i, rets, heard.landings);
  }

  /** The verdict on poll `i` is what the history says. */
  ghost predicate Judges(ask: Ask, polls: seq<Poll>, i: nat, rets: seq<nat>, verdict: Verdict)
    requires i < |polls| && polls[i].Shown?
  {
    && verdict.through == Through(ask, polls, i, rets) && verdict.asked == Asked(ask, polls, i, rets)
    && verdict.checked == Checked(ask, polls, i) && verdict.status == StatusAt(polls, i)
  }

  // A return leaves the record in touch once it is told that the next document is W2L's own.
  lemma ReturnMarked(web: Web, polls: seq<Poll>, i: nat, rets: seq<nat>, heard: Heard, acted: bool)
    requires i < |polls| && MarksBelow(Marks(polls, rets), |Documents(polls, i + 1)|)
    requires Records(web, heard, Documents(polls, i + 1), acted, Marks(polls, rets))
    ensures MarksBelow(Marks(polls, rets + [i]), |Documents(polls, i + 1)|)
    ensures Records(web, heard.(ours := true), Documents(polls, i + 1), acted, Marks(polls, rets + [i]))
  {
  }

  /** How many polls of the wait were judged: all before its end, and the last one when it showed the page. */
  function JudgedPolls(polls: seq<Poll>, out: Outcome): nat {
    if out.at < |polls| && !Ends(polls[out.at]) then out.at + 1 else out.at
  }

  /** The wait ends so: as its history says, the caller told of its first check, and asked for the person's click at the first poll that wanted it and only then. */
  ghost predicate EndsWith(v: View, polls: seq<Poll>, rets: seq<nat>, out: Outcome, told: Option<nat>, confirmed: Option<nat>) {
    SaysIn(v, polls, rets, out) && FirstCheck(v, JudgedPolls(polls, out), told) && FirstConfirm(v, JudgedPolls(polls, out), confirmed)
  }

  /** What the loop knows before poll `i`: the returns made, nothing decided since the last one, and its own counters. */
  ghost predicate Before(v: View, i: nat, rets: seq<nat>, clear: nat, told: Option<nat>, confirmed: Option<nat>) {
    ReturnsMade(v, rets) && Undecided(v, i, rets) && RunLength(v, i, rets, clear) && FirstCheck(v, i, told) && FirstConfirm(v, i, confirmed)
  }

  /** The loop's decision at poll `i`: three through in a row, and the person has acted. */
  ghost predicate Decides(v: View, i: nat, rets: seq<nat>, clear: nat) {
    CountRun(v.through(i, rets), clear) >= CLEAR_READS && v.acted(i)
  }

  lemma DecidesAtFirstReady(v: View, i: nat, rets: seq<nat>, clear: nat)
    requires i < v.size && Undecided(v, i, rets) && RunLength(v, i, rets, clear)
    ensures Decides(v, i, rets, clear) <==> FirstReady(v, i, rets)
  {
    RunLengthDecides(v, i, rets, clear);
  }

  function Tell(checked: bool, i: nat, told: Option<nat>): Option<nat> {
    if checked && told.None? then Some(i) else told
  }

  lemma ToldStep(v: View, i: nat, told: Option<nat>)
    requires i < v.size && FirstCheck(v, i, told)
    ensures FirstCheck(v, i + 1, Tell(v.checked(i), i, told))
  {
  }

  /** An act, once heard, is remembered. */
  ghost predicate ActsStay(v: View) {
    forall j, k :: 0 <= j <= k < v.size && v.acted(j) ==> v.acted(k)
  }

  lemma ReturnNeedsAct(v: View, i: nat, rets: seq<nat>)
    requires ActsStay(v) && ReturnsMade(v, rets) && rets != [] && AfterReturns(rets) <= i < v.size
    ensures v.acted(i)
  {
    var last := |rets| - 1;
    assert ReturnMade(v, rets, last);
    assert v.acted(rets[last]);
  }

  // The flag is raised at the first poll that is clear without an act.
  lemma ConfirmStep(v: View, i: nat, rets: seq<nat>, clear: nat, told: Option<nat>, confirmed: Option<nat>)
    requires i < v.size && ActsStay(v) && Before(v, i, rets, clear, told, confirmed)
    ensures FirstConfirm(v, i + 1, Tell(CountRun(v.through(i, rets), clear) >= CLEAR_READS && !v.acted(i), i, confirmed))
  {
    if rets != [] {
      ReturnNeedsAct(v, i, rets);
    } else {
      RunLengthDecides(v, i, rets, clear);
    }
  }

  // A poll that decides nothing, and ends nothing, leaves the wait going.
  lemma WaitsOn(v: View, i: nat, rets: seq<nat>, clear: nat, told: Option<nat>, confirmed: Option<nat>)
    requires i < v.size && ActsStay(v) && Before(v, i, rets, clear, told, confirmed) && !v.ends(i) && !Decides(v, i, rets, clear)
    ensures Before(v, i + 1, rets, CountRun(v.through(i, rets), clear), Tell(v.checked(i), i, told),
      Tell(CountRun(v.through(i, rets), clear) >= CLEAR_READS, i, confirmed))
  {
    DecidesAtFirstReady(v, i, rets, clear);
    RunLengthDecides(v, i, rets, clear);
    ToldStep(v, i, told);
    ConfirmStep(v, i, rets, clear, told, confirmed);
  }

  // A decision away from the page asked for is where the next return is made.
  lemma GoesBack(v: View, i: nat, rets: seq<nat>, clear: nat, told: Option<nat>, confirmed: Option<nat>)
    requires i < v.size && ActsStay(v) && Before(v, i, rets, clear, told, confirmed) && Decides(v, i, rets, clear)
    requires |rets| < RETURNS && !v.asked(i, rets)
    ensures Before(v, i + 1, rets + [i], 0, Tell(v.checked(i), i, told), confirmed)
  {
    DecidesAtFirstReady(v, i, rets, clear);
    ReturnsGrow(v, i, rets);
    ToldStep(v, i, told);
    ConfirmStep(v, i, rets, clear, told, confirmed);
  }

  lemma ReturnsGrow(v: View, i: nat, rets: seq<nat>)
    requires ReturnsMade(v, rets) && FirstReady(v, i, rets) && |rets| < RETURNS && !v.asked(i, rets)
    ensures ReturnsMade(v, rets + [i])
  {
    var next := rets + [i];
    forall m | 0 <= m < |next| ensures ReturnMade(v, next, m) {
      if m < |rets| {
        assert ReturnMade(v, rets, m);
        assert next[..m] == rets[..m];
      } else {
        assert next[..m] == rets;
      }
    }
  }

  // What is decided at a poll is what the history says.
  lemma DecidesAsSaid(v: View, polls: seq<Poll>, i: nat, rets: seq<nat>, clear: nat, told: Option<nat>, confirmed: Option<nat>)
    requires i < v.size == |polls| && ActsStay(v) && Before(v, i, rets, clear, told, confirmed) && Decides(v, i, rets, clear) && polls[i].Shown?
    ensures v.asked(i, rets) ==> EndsWith(v, polls, rets, Read(i, polls[i].page.href, v.status(i), polls[i].page.html), Tell(v.checked(i), i, told), confirmed)
    ensures !v.asked(i, rets) && |rets| == RETURNS ==> EndsWith(v, polls, rets, NotThrough(i, Elsewhere), Tell(v.checked(i), i, told), confirmed)
  {
    DecidesAtFirstReady(v, i, rets, clear);
    ToldStep(v, i, told);
    ConfirmStep(v, i, rets, clear, told, confirmed);
  }

  /** The variables of the loop. `mark`: the documents heard when the tab was last taken back. */
  datatype Wait = Wait(heard: Heard, clear: nat, returned: nat, told: Option<nat>, confirmed: Option<nat>, field: Option<Option<string>>, mark: Option<nat>)

  /** The loop's variables before poll `i` agree with the history. */
  ghost predicate AtPoll(v: View, ask: Ask, polls: seq<Poll>, i: nat, rets: seq<nat>, w: Wait) {
    && i <= |polls| == v.size && ActsStay(v) && Before(v, i, rets, w.clear, w.told, w.confirmed)
    && Records(ask.web, w.heard, Documents(polls, i), ActHeard(polls, i), Marks(polls, rets))
    && MarksBelow(Marks(polls, rets), |Documents(polls, i)|)
    && w.mark == LastMark(polls, rets) && w.field == LastField(polls, i) && w.returned == |rets|
  }

  lemma ActsRemembered(v: View, ask: Ask, polls: seq<Poll>)
    requires Views(v, ask, polls)
    ensures ActsStay(v)
  {
    forall j: nat, k: nat | j <= k < v.size && v.acted(j) ensures v.acted(k) {
      assert Viewed(v, ask, polls, j, []) && Viewed(v, ask, polls, k, []);
    }
  }

  lemma Starts(v: View, ask: Ask, polls: seq<Poll>)
    requires Views(v, ask, polls)
    ensures AtPoll(v, ask, polls, 0, [], Wait(Heard(None, false, false, {}, 0), 0, 0, None, None, None, None))
  {
    ActsRemembered(v, ask, polls);
  }

  /** What a turn on a page that answered has heard and judged, before it is acted on. */
  ghost predicate Judged(v: View, ask: Ask, polls: seq<Poll>, i: nat, rets: seq<nat>, w: Wait, heard: Heard, verdict: Verdict) {
    && AtPoll(v, ask, polls, i, rets, w) && i < |polls| && polls[i].Shown? && !v.ends(i)
    && Records(ask.web, heard, Documents(polls, i + 1), ActHeard(polls, i + 1), Marks(polls, rets))
    && MarksBelow(Marks(polls, rets), |Documents(polls, i + 1)|)
    && verdict == Verdict(v.through(i, rets), v.asked(i, rets), v.checked(i), v.status(i)) && heard.act == v.acted(i)
  }

  /** The events since the last turn are heard, then the page is judged. */
  method HearAndJudge(ask: Ask, polls: seq<Poll>, i: nat, w: Wait, ghost v: View, ghost rets: seq<nat>) returns (heard: Heard, verdict: Verdict)
    requires Views(v, ask, polls) && AtPoll(v, ask, polls, i, rets, w) && i < |polls| && polls[i].Shown?
    ensures Judged(v, ask, polls, i, rets, w, heard, verdict)
  {
    heard := Hear(ask.web, w.heard, polls[i].documents, polls[i].gesture, Documents(polls, i), ActHeard(polls, i), Marks(polls, rets));
    heard := heard.(act := heard.act || polls[i].active);
    verdict := Judge(ask, heard, polls[i].page, w.field, w.mark);
    assert Viewed(v, ask, polls, i, rets);
    JudgesTheHistory(ask, heard, polls, i, rets, ActHeard(polls, i + 1));
  }

  lemma TurnWaits(v: View, ask: Ask, polls: seq<Poll>, i: nat, rets: seq<nat>, w: Wait, heard: Heard, verdict: Verdict)
    requires Judged(v, ask, polls, i, rets, w, heard, verdict)
    requires CountRun(verdict.through, w.clear) < CLEAR_READS || !heard.act
    ensures AtPoll(v, ask, polls, i + 1, rets, Wait(heard, CountRun(verdict.through, w.clear), w.returned, Tell(verdict.checked, i, w.told),
      Tell(CountRun(verdict.through, w.clear) >= CLEAR_READS, i, w.confirmed), Some(polls[i].page.field), w.mark))
  {
    WaitsOn(v, i, rets, w.clear, w.told, w.confirmed);
  }

  lemma TurnGoesBack(v: View, ask: Ask, polls: seq<Poll>, i: nat, rets: seq<nat>, w: Wait, heard: Heard, verdict: Verdict)
    requires Judged(v, ask, polls, i, rets, w, heard, verdict)
    requires CountRun(verdict.through, w.clear) >= CLEAR_READS && heard.act && !verdict.asked && w.returned < RETURNS
    ensures AtPoll(v, ask, polls, i + 1, rets + [i],
      Wait(heard.(ours := true), 0, w.returned + 1, Tell(verdict.checked, i, w.told), w.confirmed, Some(polls[i].page.field), Some(heard.documents)))
  {
    GoesBack(v, i, rets, w.clear, w.told, w.confirmed);
    ReturnMarked(ask.web, polls, i, rets, heard, ActHeard(polls, i + 1));
  }

  lemma TurnEnds(v: View, ask: Ask, polls: seq<Poll>, i: nat, rets: seq<nat>, w: Wait, heard: Heard, verdict: Verdict)
    requires Judged(v, ask, polls, i, rets, w, heard, verdict)
    requires CountRun(verdict.through, w.clear) >= CLEAR_READS && heard.act
    ensures verdict.asked ==>
      EndsWith(v, polls, rets, Read(i, polls[i].page.href, verdict.status, polls[i].page.html), Tell(verdict.checked, i, w.told), w.confirmed)
    ensures !verdict.asked && w.returned >= RETURNS ==> EndsWith(v, polls, rets, NotThrough(i, Elsewhere), Tell(verdict.checked, i, w.told), w.confirmed)
  {
    DecidesAsSaid(v, polls, i, rets, w.clear, w.told, w.confirmed);
  }

  /** One turn on a page that did not answer: its events are heard, and the count begins again. */
  method HearOn(ask: Ask, polls: seq<Poll>, i: nat, w: Wait, ghost v: View, ghost rets: seq<nat>) returns (next: Wait)
    requires Views(v, ask, polls) && AtPoll(v, ask, polls, i, rets, w) && i < |polls| && polls[i].Unreadable?
    ensures AtPoll(v, ask, polls, i + 1, rets, next)
  {
    var heard := Hear(ask.web, w.heard, polls[i].documents, polls[i].gesture, Documents(polls, i), ActHeard(polls, i), Marks(polls, rets));
    assert Viewed(v, ask, polls, i, rets);
    WaitsOn(v, i, rets, w.clear, w.told, w.confirmed);
    next := w.(heard := heard, clear := 0);
  }

  // The three other ways the loop ends say what the history says.
  lemma WaitEnds(v: View, ask: Ask, polls: seq<Poll>, i: nat, rets: seq<nat>, w: Wait)
    requires AtPoll(v, ask, polls, i, rets, w)
    ensures i == |polls| ==> EndsWith(v, polls, rets, NotThrough(i, TimedOut), w.told, w.confirmed)
    ensures i < |polls| && polls[i].Cancelled? ==> EndsWith(v, polls, rets, NotThrough(i, WasCancelled), w.told, w.confirmed)
    ensures i < |polls| && polls[i].Gone? ==> EndsWith(v, polls, rets, NotThrough(i, TabGone), w.told, w.confirmed)
  {
  }

  /** One turn on a page that answered: wait on, take the tab back, or end. */
  method Turn(ask: Ask, polls: seq<Poll>, i: nat, w: Wait, ghost v: View, ghost rets: seq<nat>) returns (next: Wait, ended: Option<Outcome>, ghost made: seq<nat>)
    requires Views(v, ask, polls) && AtPoll(v, ask, polls, i, rets, w) && i < |polls| && polls[i].Shown?
    ensures ended.None? ==> AtPoll(v, ask, polls, i + 1, made, next)
    ensures ended.Some? ==> EndsWith(v, polls, made, ended.value, next.told, next.confirmed)
  {
    var heard, verdict := HearAndJudge(ask, polls, i, w, v, rets);
    var clear := if verdict.through then w.clear + 1 else 0;
    var told := if verdict.checked && w.told.None? then Some(i) else w.told;
    next, ended, made := Wait(heard, clear, w.returned, told, w.confirmed, Some(polls[i].page.field), w.mark), None, rets;
    if clear < CLEAR_READS || !heard.act {
      if clear >= CLEAR_READS && w.confirmed.None? {
        next := next.(confirmed := Some(i));
      }
      TurnWaits(v, ask, polls, i, rets, w, heard, verdict);
      return;
    }
    TurnEnds(v, ask, polls, i, rets, w, heard, verdict);
    if verdict.asked {
      ended := Some(Read(i, polls[i].page.href, verdict.status, polls[i].page.html));
    } else if w.returned >= RETURNS {
      ended := Some(NotThrough(i, Elsewhere));
    } else {
      TurnGoesBack(v, ask, polls, i, rets, w, heard, verdict);
      next := next.(heard := heard.(ours := true), clear := 0, returned := w.returned + 1, mark := Some(heard.documents));
      made := rets + [i];
    }
  }

  /**
   * `readPage`: polls until the page may be read, the wait is over or the tab is gone. `told` is the poll whose check the
   * caller was told of, `confirmed` the one at which it was asked for the person's click; `rets` names the polls at which
   * the tab was taken back to the URL.
   */
  method ReadPage(ask: Ask, polls: seq<Poll>) returns (out: Outcome, told: Option<nat>, confirmed: Option<nat>, ghost rets: seq<nat>)
    ensures EndsWith(ViewOf(ask, polls), polls, rets, out, told, confirmed)
  {
    ViewIs(ask, polls);
    out, told, confirmed, rets := ReadUnder(ask, polls, ViewOf(ask, polls));
  }

  method ReadUnder(ask: Ask, polls: seq<Poll>, ghost v: View) returns (out: Outcome, told: Option<nat>, confirmed: Option<nat>, ghost rets: seq<nat>)
    requires Views(v, ask, polls)
    ensures EndsWith(v, polls, rets, out, told, confirmed)
  {
    var w := Wait(Heard(None, false, false, {}, 0), 0, 0, None, None, None, None);
    rets := [];
    Starts(v, ask, polls);
    for i := 0 to |polls|
      invariant AtPoll(v, ask, polls, i, rets, w)
    {
      WaitEnds(v, ask, polls, i, rets, w);
      if polls[i].Cancelled? {
        return NotThrough(i, WasCancelled), w.told, w.confirmed, rets;
      }
      if polls[i].Gone? {
        return NotThrough(i, TabGone), w.told, w.confirmed, rets;
      }
      if polls[i].Unreadable? {
        w := HearOn(ask, polls, i, w, v, rets);
      } else {
        var ended;
        w, ended, rets := Turn(ask, polls, i, w, v, rets);
        if ended.Some? {
          return ended.value, w.told, w.confirmed, rets;
        }
      }
    }
    WaitEnds(v, ask, polls, |polls|, rets, w);
    out, told, confirmed := NotThrough(|polls|, TimedOut), w.told, w.confirmed;
  }

  // ---------------------------------------------------------------- what the history predicate settles

  lemma FirstReadyUnique(v: View, j: nat, k: nat, rets: seq<nat>)
    requires FirstReady(v, j, rets) && FirstReady(v, k, rets)
    ensures j == k
  {
  }

  // Two accounts of one history agree on the returns both made.
  lemma {:induction false} ReturnsAgree(v: View, a: seq<nat>, b: seq<nat>, n: nat)
    requires ReturnsMade(v, a) && ReturnsMade(v, b) && n <= |a| && n <= |b|
    ensures a[..n] == b[..n]
    decreases n
  {
    if n > 0 {
      ReturnsAgree(v, a, b, n - 1);
      assert ReturnMade(v, a, n - 1) && ReturnMade(v, b, n - 1);
      FirstReadyUnique(v, a[n - 1], b[n - 1], a[..n - 1]);
      assert a[..n] == a[..n - 1] + [a[n - 1]] && b[..n] == b[..n - 1] + [b[n - 1]];
    }
  }

  /** The history knows which polls ended the wait. */
  ghost predicate EndsKnown(v: View, polls: seq<Poll>) {
    v.size == |polls| && forall k :: 0 <= k < |polls| ==> v.ends(k) == Ends(polls[k])
  }

  lemma ViewKnowsEnds(ask: Ask, polls: seq<Poll>)
    ensures EndsKnown(ViewOf(ask, polls), polls)
  {
  }

  /** Where an account ends: at the first ready poll, at one that ends the wait, or with the polls. */
  ghost predicate EndsAt(v: View, rets: seq<nat>, k: nat) {
    Undecided(v, k, rets) && (k == v.size || v.ends(k) || Ready(v, k, rets))
  }

  lemma OneEnd(v: View, rets: seq<nat>, j: nat, k: nat)
    requires EndsAt(v, rets, j) && EndsAt(v, rets, k)
    ensures j >= k
  {
  }

  lemma SaysWhereItEnds(v: View, polls: seq<Poll>, rets: seq<nat>, out: Outcome)
    requires EndsKnown(v, polls) && SaysIn(v, polls, rets, out)
    ensures EndsAt(v, rets, out.at)
  {
  }

  // When some poll is the first ready one, the account ends there: with a read, or with no return left to make.
  lemma EndsInView(v: View, polls: seq<Poll>, rets: seq<nat>, out: Outcome, k: nat)
    requires EndsKnown(v, polls) && SaysIn(v, polls, rets, out) && FirstReady(v, k, rets) && !v.ends(k)
    ensures out.at == k && (v.asked(k, rets) || |rets| == 2)
  {
    SaysWhereItEnds(v, polls, rets, out);
    OneEnd(v, rets, out.at, k);
    OneEnd(v, rets, k, out.at);
  }

  /** A ready poll showed the page, so it did not end the wait. */
  ghost predicate ReadyShown(v: View) {
    forall k: nat, rets :: Ready(v, k, rets) ==> !v.ends(k)
  }

  lemma ViewShowsReady(ask: Ask, polls: seq<Poll>)
    ensures ReadyShown(ViewOf(ask, polls))
  {
  }

  lemma EndsAtFirstReady(ask: Ask, polls: seq<Poll>, rets: seq<nat>, out: Outcome, k: nat)
    requires Says(ask, polls, rets, out) && FirstReady(ViewOf(ask, polls), k, rets)
    ensures k < |polls| && out.at == k && (Asked(ask, polls, k, rets) || |rets| == 2)
  {
    ViewKnowsEnds(ask, polls);
    ViewShowsReady(ask, polls);
    EndsInView(ViewOf(ask, polls), polls, rets, out, k);
  }

  // An account that ended cannot be continued by a further return.
  lemma NoReturnAfterEnd(v: View, polls: seq<Poll>, a: seq<nat>, out: Outcome, b: seq<nat>)
    requires EndsKnown(v, polls) && ReadyShown(v) && SaysIn(v, polls, a, out) && ReturnsMade(v, b)
    ensures |b| <= |a|
  {
    if |b| > |a| {
      ReturnsAgree(v, a, b, |a|);
      assert ReturnMade(v, b, |a|);
      assert b[..|a|] == a;
      EndsInView(v, polls, a, out, b[|a|]);
    }
  }

  lemma OutcomeUnique(v: View, polls: seq<Poll>, rets: seq<nat>, out: Outcome, other: Outcome)
    requires EndsKnown(v, polls) && ReadyShown(v) && SaysIn(v, polls, rets, out) && SaysIn(v, polls, rets, other)
    ensures out == other
  {
    SaysWhereItEnds(v, polls, rets, out);
    SaysWhereItEnds(v, polls, rets, other);
    OneEnd(v, rets, out.at, other.at);
    OneEnd(v, rets, other.at, out.at);
  }

  // A history says one thing only, so the loop returns a read at exactly the poll the history predicate names.
  lemma SaysUnique(ask: Ask, polls: seq<Poll>, a: seq<nat>, out: Outcome, b: seq<nat>, other: Outcome)
    requires Says(ask, polls, a, out) && Says(ask, polls, b, other)
    ensures a == b && out == other
  {
    ViewKnowsEnds(ask, polls);
    ViewShowsReady(ask, polls);
    SaysOnce(ViewOf(ask, polls), polls, a, out, b, other);
  }

  lemma SaysOnce(v: View, polls: seq<Poll>, a: seq<nat>, out: Outcome, b: seq<nat>, other: Outcome)
    requires EndsKnown(v, polls) && ReadyShown(v) && SaysIn(v, polls, a, out) && SaysIn(v, polls, b, other)
    ensures a == b && out == other
  {
    NoReturnAfterEnd(v, polls, a, out, b);
    NoReturnAfterEnd(v, polls, b, other, a);
    ReturnsAgree(v, a, b, |a|);
    assert a == a[..|a|] && b == b[..|b|];
    OutcomeUnique(v, polls, a, out, other);
  }

  /** What stands behind a read at poll `k`. */
  ghost predicate Backed(ask: Ask, polls: seq<Poll>, rets: seq<nat>, k: nat) {
    && AfterReturns(rets) + 2 <= k < |polls| && |rets| <= 2
    && Through(ask, polls, k - 2, rets) && Through(ask, polls, k - 1, rets) && Through(ask, polls, k, rets)
    && ActHeard(polls, k + 1) && Asked(ask, polls, k, rets)
  }

  lemma ReadIsBacked(v: View, ask: Ask, polls: seq<Poll>, rets: seq<nat>, out: Outcome)
    requires Views(v, ask, polls) && SaysIn(v, polls, rets, out) && out.Read?
    ensures Backed(ask, polls, rets, out.at) && polls[out.at].Shown? && out.status == StatusAt(polls, out.at)
    ensures out.finalUrl == polls[out.at].page.href && out.html == polls[out.at].page.html
  {
    assert Viewed(v, ask, polls, out.at - 2, rets) && Viewed(v, ask, polls, out.at - 1, rets) && Viewed(v, ask, polls, out.at, rets);
  }

  // Nothing a page does by itself has it read: without an act of the person's own there is no read, however clear it shows.
  lemma NoReadWithoutAct(ask: Ask, polls: seq<Poll>, rets: seq<nat>, out: Outcome)
    requires Says(ask, polls, rets, out) && out.Read?
    ensures out.at < |polls| && exists j: nat :: j <= out.at && !polls[j].Cancelled? && (polls[j].gesture || (polls[j].Shown? && polls[j].active))
  {
    ViewIs(ask, polls);
    ReadIsBacked(ViewOf(ask, polls), ask, polls, rets, out);
    var j :| 0 <= j < out.at + 1 && j < |polls| && Acts(polls[j]);
  }

  /** The page at poll `k` may be read, by the polls and the tables alone. */
  ghost predicate MayRead(ask: Ask, polls: seq<Poll>, k: nat)
    requires k < |polls|
  {
    && polls[k].Shown?
    && var page, own := polls[k].page, OwnResponse(polls, k);
    && var status := if own.Some? then Some(own.value.status) else page.status;
    && page.complete && !page.secret
    && (status.Some? ==> 200 <= status.value <= 299)
    && (if status.Some? then status.value else 200, own, page.html) !in ask.web.gates
    && page.href in ask.web.addresses && ask.url in ask.web.addresses
    && (ask.web.addresses[page.href].path in ask.web.loginPaths ==> ask.web.addresses[ask.url].path in ask.web.loginPaths)
    && ((ask.web.addresses[page.href].host, ask.web.addresses[ask.url].host) in ask.web.covers
      || (ask.web.addresses[ask.url].host, ask.web.addresses[page.href].host) in ask.web.covers)
    && (page.field.Some? ==> forall j: nat :: LastShown(polls, k, j) ==> polls[j].page.field == page.field)
  }

  // What is read was shown so by three polls in a row, after a return by three since it with its document come.
  lemma ReadMeans(ask: Ask, polls: seq<Poll>, rets: seq<nat>, k: nat, finalUrl: string, status: Option<int>, html: string)
    requires Says(ask, polls, rets, Read(k, finalUrl, status, html))
    ensures 2 <= k < |polls| && MayRead(ask, polls, k - 2) && MayRead(ask, polls, k - 1) && MayRead(ask, polls, k)
    ensures finalUrl == polls[k].page.href && html == polls[k].page.html
    ensures status == if OwnResponse(polls, k).Some? then Some(OwnResponse(polls, k).value.status) else polls[k].page.status
    ensures |rets| <= 2 && (rets != [] ==> rets[|rets| - 1] < k - 2)
    ensures rets != [] && ask.listens ==> |Documents(polls, rets[|rets| - 1] + 1)| < |Documents(polls, k - 1)|
  {
    ViewIs(ask, polls);
    ReadIsBacked(ViewOf(ask, polls), ask, polls, rets, Read(k, finalUrl, status, html));
  }

  // What is read was asked for: the URL's own page, or the first document after one of W2L's own returns, at most two.
  lemma ReadIsAskedFor(ask: Ask, polls: seq<Poll>, rets: seq<nat>, out: Outcome)
    requires Says(ask, polls, rets, out) && out.Read?
    ensures |rets| <= 2 && out.at < |polls|
    ensures SamePage(ask.web, out.finalUrl, ask.url)
      || exists m: nat :: ReturnLanded(polls, out.at, rets, m) && SamePage(ask.web, out.finalUrl, Documents(polls, out.at + 1)[m].url)
  {
    ViewIs(ask, polls);
    ReadIsBacked(ViewOf(ask, polls), ask, polls, rets, out);
  }
}
