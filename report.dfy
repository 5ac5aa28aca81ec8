/**
 * The report script (backend/test.py): logging in with a plain request, and
 * folding the report page's `content-level1` sections into a title-to-text
 * dict. HTML parsing is not modelled: a page arrives as the sequence of its
 * section divs, each with the text of its `h2` heading and of its
 * `pre.json` block when it has them.
 */
module Report {
  import opened Wrappers
  import opened Dicts
  import opened Cookies

  // ---- Login ----

  /** What the login request got: it failed (connection or HTTP status), or a reply. */
  datatype LoginReply = LoginRequestFailed | LoginAnswered(bodyIsJson: bool, cookies: seq<Cookie>)

  /** How `login_device` ends: it returns a header, or the JSON decoding error escapes. */
  datatype LoginResult = ReturnsHeader(header: string) | RaisesDecodeError

  /**
   * `login_device` of the report script: "" when the request fails; the
   * body's JSON decoding error propagates (it is outside the `try`);
   * otherwise the Cookie header built from the cookie jar.
   */
  function LoginDevice(reply: LoginReply): (r: LoginResult)
    ensures reply.LoginRequestFailed? ==> r == ReturnsHeader("")
    ensures reply.LoginAnswered? && !reply.bodyIsJson ==> r.RaisesDecodeError?
    ensures reply.LoginAnswered? && reply.bodyIsJson ==> r.ReturnsHeader? && r.header == CookieHeader(reply.cookies)
  {
    match reply
    case LoginRequestFailed => ReturnsHeader("")
    case LoginAnswered(bodyIsJson, cookies) =>
      if !bodyIsJson then RaisesDecodeError else ReturnsHeader(CookieHeader(cookies))
  }

  /**
   * A successful login whose jar is empty returns the same "" as a failed
   * request, so a caller testing the header's truth cannot tell the two
   * apart; a non-empty jar gives a header that reads back as the jar.
   */
  lemma LoginHeaderMeaning(cookies: seq<Cookie>)
    requires forall i :: 0 <= i < |cookies| ==> HeaderSafe(cookies[i])
    ensures LoginDevice(LoginAnswered(true, cookies)).header == "" <==> cookies == []
    ensures ReadCookieHeader(LoginDevice(LoginAnswered(true, cookies)).header) == cookies
  {
    CookieHeaderRoundTrip(cookies);
  }

  // ---- Report sections ----

  /** One `content-level1` div: the text of its `h2`, and of its `pre.json`, when present. */
  datatype Div = Div(heading: Option<string>, pre: Option<string>)

  /** The report request failed, or it returned a page with or without a `report-content` div. */
  datatype ReportFetch = ReportFetchFailed | ReportFetched(content: Option<seq<Div>>)

  /** A div contributes an entry only when it has both a heading and a `pre.json` block. */
  predicate Contributes(d: Div)
  {
    d.heading.Some? && d.pre.Some?
  }

  /** The assignments the loop makes, in div order. */
  function Contributions(divs: seq<Div>): (es: seq<Entry<string>>)
    ensures |es| <= |divs|
    decreases |divs|
  {
    if divs == [] then []
    else
      var last := divs[|divs| - 1];
      Contributions(divs[..|divs| - 1]) +
        (if Contributes(last) then [Entry(last.heading.value, last.pre.value)] else [])
  }

  /** The dict `get_report` returns. */
  function ReportSections(fetch: ReportFetch): (sections: seq<Entry<string>>)
    ensures UniqueKeys(sections)
    ensures fetch.ReportFetched? && fetch.content.Some? ==> |sections| <= |fetch.content.value|
  {
    match fetch
    case ReportFetchFailed => []
    case ReportFetched(None) => []
    case ReportFetched(Some(divs)) =>
      PutAllUnique([], Contributions(divs));
      PutAllLength([], Contributions(divs));
      PutAll([], Contributions(divs))
  }

  /**
   * `get_report`: nothing on a failed request or a page without report
   * content; otherwise assign `sections[title] = text` for every div with
   * both parts, in div order.
   */
  method GetReport(fetch: ReportFetch) returns (sections: seq<Entry<string>>)
    ensures sections == ReportSections(fetch)
  {
    if fetch.ReportFetchFailed? {
      return [];
    }
    if fetch.content.None? {
      return [];
    }
    var divs := fetch.content.value;
    sections := [];
    for i := 0 to |divs|
      invariant sections == PutAll([], Contributions(divs[..i]))
    {
      var div := divs[i];
      assert divs[..i + 1][..i] == divs[..i];
      PutAllAppend([], Contributions(divs[..i]),
        if Contributes(div) then [Entry(div.heading.value, div.pre.value)] else []);
      if div.heading.Some? && div.pre.Some? {
        sections := Put(sections, div.heading.value, div.pre.value);
      } else {
        assert Contributions(divs[..i]) + [] == Contributions(divs[..i]);
      }
    }
    assert divs[..|divs|] == divs;
  }

  /** A failed request or a page without report content gives the empty dict. */
  lemma ReportEmptyOnFailure(fetch: ReportFetch)
    requires fetch.ReportFetchFailed? || fetch.content.None?
    ensures ReportSections(fetch) == []
  {
  }

  /** The section titles are exactly the headings of contributing divs. */
  lemma {:induction false} ContributionKeys(divs: seq<Div>, title: string)
    ensures title in Keys(Contributions(divs)) <==>
      exists i :: 0 <= i < |divs| && Contributes(divs[i]) && divs[i].heading.value == title
    decreases |divs|
  {
    if divs != [] {
      var init, last := divs[..|divs| - 1], divs[|divs| - 1];
      var tail := if Contributes(last) then [Entry(last.heading.value, last.pre.value)] else [];
      ContributionKeys(init, title);
      KeysAppend(Contributions(init), tail);
      if exists i :: 0 <= i < |init| && Contributes(init[i]) && init[i].heading.value == title {
        var i :| 0 <= i < |init| && Contributes(init[i]) && init[i].heading.value == title;
        assert divs[i] == init[i];
      }
      if exists i :: 0 <= i < |divs| && Contributes(divs[i]) && divs[i].heading.value == title {
        var i :| 0 <= i < |divs| && Contributes(divs[i]) && divs[i].heading.value == title;
        if i < |divs| - 1 {
          assert init[i] == divs[i];
        }
      }
    }
  }

  /**
   * The dict `get_report` returns: no title twice; a title is present iff some
   * div with both parts has it; its text is that of the last such div; and
   * there are no more entries than contributing divs.
   */
  lemma ReportSectionsMeaning(divs: seq<Div>, title: string)
    ensures UniqueKeys(ReportSections(ReportFetched(Some(divs))))
    ensures title in Keys(ReportSections(ReportFetched(Some(divs)))) <==>
      exists i :: 0 <= i < |divs| && Contributes(divs[i]) && divs[i].heading.value == title
    ensures Get(ReportSections(ReportFetched(Some(divs))), title) == LastGet(Contributions(divs), title)
    ensures |ReportSections(ReportFetched(Some(divs)))| <= |Contributions(divs)| <= |divs|
  {
    var es := Contributions(divs);
    PutAllUnique([], es);
    PutAllGetLast([], es, title);
    ContributionKeys(divs, title);
    PutAllLength([], es);
  }

  /** A later div with the same heading overrides an earlier one. */
  lemma LaterSectionWins(divs: seq<Div>, heading: string, first: string, second: string)
    ensures Get(ReportSections(ReportFetched(Some(divs + [Div(Some(heading), Some(first)), Div(Some(heading), Some(second))]))), heading) == Some(second)
  {
    var all := divs + [Div(Some(heading), Some(first)), Div(Some(heading), Some(second))];
    assert all[..|all| - 1] == divs + [Div(Some(heading), Some(first))];
    ReportSectionsMeaning(all, heading);
  }
}
