/**
 * The Cookie request header both login helpers build from a login
 * response's cookies (backend/app.py `login_device`, backend/test.py
 * `login_device`): `"; ".join(f"{name}={value}")` over the cookie jar, in
 * jar order.
 */
module Cookies {
  import opened Strings

  datatype Cookie = Cookie(name: string, value: string)

  function PairText(c: Cookie): string
  {
    c.name + "=" + c.value
  }

  function PairTexts(cs: seq<Cookie>): (ps: seq<string>)
    ensures |ps| == |cs|
    ensures forall i :: 0 <= i < |cs| ==> ps[i] == PairText(cs[i])
  {
    seq(|cs|, i requires 0 <= i < |cs| => PairText(cs[i]))
  }

  /** The header value: `name=value` pairs joined by "; ". */
  function CookieHeader(cs: seq<Cookie>): (h: string)
    ensures h == "" <==> cs == []
  {
    var ps := PairTexts(cs);
    assert cs != [] ==> |Join(ps, "; ")| >= |ps[0]| > 0 by {
      if cs != [] {
        assert ps[0] == cs[0].name + "=" + cs[0].value;
      }
    }
    Join(ps, "; ")
  }

  /** A cookie the header can carry unambiguously: no ';' anywhere, no '=' in the name. */
  predicate HeaderSafe(c: Cookie)
  {
    ';' !in c.name && '=' !in c.name && ';' !in c.value
  }

  /** Index of the first `c` in `s`, or `|s|` when there is none. */
  function FirstIndex(s: string, c: char): (i: nat)
    ensures i <= |s|
    ensures forall j :: 0 <= j < i ==> s[j] != c
    ensures i < |s| ==> s[i] == c
  {
    if s == [] || s[0] == c then 0 else 1 + FirstIndex(s[1..], c)
  }

  /** Reads one `name=value` pair, splitting at the first '='. */
  function ReadPair(s: string): Cookie
  {
    var i := FirstIndex(s, '=');
    if i == |s| then Cookie(s, "") else Cookie(s[..i], s[i + 1..])
  }

  /** Drops the single space that follows each ';' of the separator. */
  function Unspace(s: string): string
  {
    if s != [] && s[0] == ' ' then s[1..] else s
  }

  /** How a server reads the header back: the inverse of `CookieHeader` for safe cookies. */
  function ReadCookieHeader(h: string): (cs: seq<Cookie>)
  {
    if h == [] then []
    else
      var pieces := Split(h, ';');
      seq(|pieces|, i requires 0 <= i < |pieces| => ReadPair(if i == 0 then pieces[i] else Unspace(pieces[i])))
  }

  /** The pieces with a space put in front of every one but the first. */
  function Spaced(ps: seq<string>): (r: seq<string>)
    ensures |r| == |ps|
    ensures |ps| > 0 ==> r[0] == ps[0]
    ensures forall i :: 0 < i < |ps| ==> r[i] == " " + ps[i]
  {
    seq(|ps|, i requires 0 <= i < |ps| => if i == 0 then ps[i] else " " + ps[i])
  }

  /** Joining with "; " is joining the spaced pieces with ";". */
  lemma {:induction false} JoinSpaced(ps: seq<string>)
    ensures Join(ps, "; ") == Join(Spaced(ps), ";")
    decreases |ps|
  {
    if |ps| > 1 {
      var tail := ps[1..];
      JoinSpaced(tail);
      var sp := Spaced(ps);
      assert Spaced(tail)[0] == tail[0];
      assert Join(Spaced(ps), ";") == ps[0] + ";" + Join(sp[1..], ";");
      if |tail| == 1 {
        assert sp[1..] == [" " + tail[0]];
      } else {
        JoinSpacedTail(tail);
        assert sp[1..] == [" " + tail[0]] + Spaced(tail)[1..];
        assert Join(sp[1..], ";") == " " + tail[0] + ";" + Join(Spaced(tail)[1..], ";");
      }
    }
  }

  lemma JoinSpacedTail(ps: seq<string>)
    requires |ps| > 1
    ensures Join(Spaced(ps), ";") == ps[0] + ";" + Join(Spaced(ps)[1..], ";")
  {
  }

  lemma ReadPairOf(c: Cookie)
    requires '=' !in c.name
    ensures ReadPair(PairText(c)) == c
  {
    var s := PairText(c);
    var i := FirstIndex(s, '=');
    assert s[|c.name|] == '=';
    assert i == |c.name|;
    assert s[..i] == c.name && s[i + 1..] == c.value;
  }

  /** Reading the header back gives the cookies back, in order. */
  lemma CookieHeaderRoundTrip(cs: seq<Cookie>)
    requires forall i :: 0 <= i < |cs| ==> HeaderSafe(cs[i])
    ensures ReadCookieHeader(CookieHeader(cs)) == cs
  {
    if |cs| > 0 {
      var ps := PairTexts(cs);
      var sp := Spaced(ps);
      JoinSpaced(ps);
      forall i | 0 <= i < |sp|
        ensures ';' !in sp[i]
      {
        assert ';' !in PairText(cs[i]) by {
          JoinHasNo([cs[i].name, cs[i].value], "=", ';');
          assert PairText(cs[i]) == Join([cs[i].name, cs[i].value], "=");
        }
      }
      SplitJoin(sp, ';');
      var h := CookieHeader(cs);
      assert h != [] by {
        assert '=' in PairText(cs[0]);
        if |cs| > 1 {
          assert h == sp[0] + ";" + Join(sp[1..], ";");
        }
      }
      var back := ReadCookieHeader(h);
      forall i | 0 <= i < |cs|
        ensures back[i] == cs[i]
      {
        ReadPairOf(cs[i]);
        if i > 0 {
          assert Unspace(sp[i]) == ps[i];
        }
      }
    }
  }

  /** Distinct safe cookie lists give distinct headers. */
  lemma CookieHeaderInjective(cs: seq<Cookie>, ds: seq<Cookie>)
    requires forall i :: 0 <= i < |cs| ==> HeaderSafe(cs[i])
    requires forall i :: 0 <= i < |ds| ==> HeaderSafe(ds[i])
    requires CookieHeader(cs) == CookieHeader(ds)
    ensures cs == ds
  {
    CookieHeaderRoundTrip(cs);
    CookieHeaderRoundTrip(ds);
  }
}
