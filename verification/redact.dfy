/** The log redactor: a scanner that strips user information from anything shaped like a URL. */
module Redaction {
  import opened Wrappers

  predicate SchemeAt(s: string, j: nat) {
    j + 3 <= |s| && s[j] == ':' && s[j + 1] == '/' && s[j + 2] == '/'
  }

  predicate SchemeFree(s: string, n: nat) {
    forall j :: 0 <= j < n ==> !SchemeAt(s, j)
  }

  /** The first "://". */
  function Find(s: string): (r: Option<nat>)
    ensures if r.Some? then SchemeAt(s, r.value) && SchemeFree(s, r.value) else SchemeFree(s, |s|)
  {
    if |s| < 3 then None
    else if SchemeAt(s, 0) then Some(0)
    else
      var r := Find(s[1..]);
      assert forall j :: 0 < j < |s| ==> SchemeAt(s, j) == SchemeAt(s[1..], j - 1);
      if r.None? then None else Some(r.value + 1)
  }

  predicate Terminator(c: char) {
    c == '/' || c == '?' || c == '#' || c == ' ' || c == '"' || c == '\''
  }

  predicate NoTerminator(s: string) {
    forall j :: 0 <= j < |s| ==> !Terminator(s[j])
  }

  /** s ends at once, or with a character no authority contains. */
  predicate StartsClosed(s: string) {
    s == "" || Terminator(s[0])
  }

  /** Where the authority at the start of s ends. */
  function AuthorityEnd(s: string): (n: nat)
    ensures n <= |s| && NoTerminator(s[..n]) && StartsClosed(s[n..])
  {
    if s == [] || Terminator(s[0]) then
      assert s[0..] == s;
      0
    else
      var n := AuthorityEnd(s[1..]);
      assert s[..n + 1] == [s[0]] + s[1..][..n] && s[n + 1..] == s[1..][n..];
      n + 1
  }

  /** What follows the last '@'. */
  function Host(authority: string): (h: string)
    ensures '@' !in h
    ensures '@' in authority ==> exists u :: authority == u + "@" + h
  {
    if '@' !in authority then authority
    else if authority[0] == '@' && '@' !in authority[1..] then
      assert authority == "" + "@" + authority[1..];
      authority[1..]
    else
      var h := Host(authority[1..]);
      assert exists u :: authority == u + "@" + h by {
        var v :| authority[1..] == v + "@" + h;
        assert authority == ([authority[0]] + v) + "@" + h;
      }
      h
  }

  function CleanAuthority(authority: string): (c: string)
    ensures '@' !in c
    ensures '@' !in authority ==> c == authority
  {
    if '@' in authority then "redacted:" + Host(authority) else authority
  }

  // ---- the recursive specification ----

  /** A stretch of text that ends in its first "://", and the authority after it. */
  datatype Link = Link(text: string, authority: string)

  /** The first link of a text and the text after it. */
  datatype Cut = Cut(link: Link, rest: string)

  function FirstCut(s: string): (c: Option<Cut>)
    ensures c.Some? ==> |c.value.rest| < |s|
  {
    var k := Find(s);
    if k.None? then None
    else
      var start := k.value + 3;
      var end := start + AuthorityEnd(s[start..]);
      Some(Cut(Link(s[..start], s[start..end]), s[end..]))
  }

  datatype Parsed = Parsed(links: seq<Link>, tail: string)

  function Parse(s: string): Parsed
    decreases |s|
  {
    match FirstCut(s)
    case None => Parsed([], s)
    case Some(c) => var p := Parse(c.rest); Parsed([c.link] + p.links, p.tail)
  }

  function Rest(p: Parsed): Parsed
    requires p.links != []
  {
    Parsed(p.links[1..], p.tail)
  }

  function Unparse(p: Parsed): string
    decreases |p.links|
  {
    if p.links == [] then p.tail
    else p.links[0].text + p.links[0].authority + Unparse(Rest(p))
  }

  function Cleaned(p: Parsed): (q: Parsed)
    ensures |q.links| == |p.links|
  {
    Parsed(seq(|p.links|, i requires 0 <= i < |p.links| =>
      Link(p.links[i].text, CleanAuthority(p.links[i].authority))), p.tail)
  }

  /** The specification: everything outside the authorities stays, in order. */
  function Clean(s: string): string {
    Unparse(Cleaned(Parse(s)))
  }

  // ---- cuts ----

  predicate IsLink(l: Link) {
    |l.text| >= 3 && Find(l.text) == Some(|l.text| - 3) && NoTerminator(l.authority)
  }

  lemma FindAtEnd(t: string, u: string)
    requires |t| >= 3
    ensures Find(t) == Some(|t| - 3) <==> Find(t + u) == Some(|t| - 3)
  {
    assert forall j :: 0 <= j <= |t| - 3 ==> SchemeAt(t + u, j) == SchemeAt(t, j);
  }

  lemma {:induction false} FirstTerminator(s: string, m: nat)
    requires m <= |s| && NoTerminator(s[..m]) && StartsClosed(s[m..])
    ensures AuthorityEnd(s) == m
  {
    if m == 0 {
      assert s[0..] == s;
    } else {
      assert s[..m][0] == s[0];
      assert s[1..][..m - 1] == s[..m][1..] && s[1..][m - 1..] == s[m..];
      FirstTerminator(s[1..], m - 1);
    }
  }

  lemma FindFits(s: string)
    ensures Find(s).Some? ==> Find(s).value + 3 <= |s|
  {
  }

  lemma CutIsALink(s: string)
    requires FirstCut(s).Some?
    ensures var c := FirstCut(s).value;
      s == c.link.text + c.link.authority + c.rest && IsLink(c.link) && StartsClosed(c.rest)
  {
    hide Find, AuthorityEnd, NoTerminator, SchemeAt, SchemeFree, StartsClosed;
    FindFits(s);
    var start := Find(s).value + 3;
    var n := AuthorityEnd(s[start..]);
    assert s == s[..start] + s[start..];
    FindAtEnd(s[..start], s[start..]);
    assert s[start..start + n] == s[start..][..n] && s[start + n..] == s[start..][n..];
  }

  lemma LinkIsCut(l: Link, rest: string)
    requires IsLink(l) && StartsClosed(rest)
    ensures FirstCut(l.text + l.authority + rest) == Some(Cut(l, rest))
  {
    hide SchemeAt, Find, AuthorityEnd, Terminator;
    var t := l.authority + rest;
    var s := l.text + l.authority + rest;
    assert s == l.text + t;
    FindAtEnd(l.text, t);
    assert t[..|l.authority|] == l.authority && t[|l.authority|..] == rest;
    FirstTerminator(t, |l.authority|);
    hide Find, AuthorityEnd, NoTerminator;
    assert s[..|l.text|] == l.text && s[|l.text|..] == t;
    assert s[|l.text|..|l.text| + |l.authority|] == l.authority;
    assert s[|l.text| + |l.authority|..] == rest;
  }

  // ---- parsing and unparsing ----

  /** Parsing loses nothing. */
  lemma {:induction false} UnparseParse(s: string)
    ensures Unparse(Parse(s)) == s
    decreases |s|
  {
    hide FirstCut, IsLink;
    if FirstCut(s).Some? {
      var c := FirstCut(s).value;
      CutIsALink(s);
      UnparseParse(c.rest);
      assert Rest(Parse(s)) == Parse(c.rest);
    }
  }

  /** What every parse looks like, and what determines it. */
  predicate Canonical(p: Parsed)
    decreases |p.links|
  {
    if p.links == [] then FirstCut(p.tail) == None
    else IsLink(p.links[0]) && StartsClosed(Unparse(Rest(p))) && Canonical(Rest(p))
  }

  lemma {:induction false} ParseIsCanonical(s: string)
    ensures Canonical(Parse(s))
    decreases |s|
  {
    hide FirstCut, IsLink, StartsClosed;
    if FirstCut(s).Some? {
      var c := FirstCut(s).value;
      CutIsALink(s);
      ParseIsCanonical(c.rest);
      UnparseParse(c.rest);
      assert Rest(Parse(s)) == Parse(c.rest);
    }
  }

  /** A canonical parse is the parse of its text. */
  lemma {:induction false} ParseUnparse(p: Parsed)
    requires Canonical(p)
    ensures Parse(Unparse(p)) == p
    decreases |p.links|
  {
    hide FirstCut, IsLink, StartsClosed;
    if p.links != [] {
      ParseUnparse(Rest(p));
      LinkIsCut(p.links[0], Unparse(Rest(p)));
      assert p.links == [p.links[0]] + Rest(p).links;
    }
  }

  // ---- cleaning ----

  lemma CleanAuthorityStaysInside(a: string)
    requires NoTerminator(a)
    ensures NoTerminator(CleanAuthority(a))
  {
    if '@' in a {
      var h := Host(a);
      var u :| a == u + "@" + h;
      hide Host;
      assert NoTerminator(h) by {
        assert h == a[|u| + 1..];
      }
      assert NoTerminator("redacted:");
    }
  }

  lemma CleanedRest(p: Parsed)
    requires p.links != []
    ensures Rest(Cleaned(p)) == Cleaned(Rest(p))
    ensures Cleaned(p).links[0] == Link(p.links[0].text, CleanAuthority(p.links[0].authority))
  {
  }

  lemma {:induction false} CleanedIsCanonical(p: Parsed)
    requires Canonical(p)
    ensures Canonical(Cleaned(p))
    ensures StartsClosed(Unparse(p)) ==> StartsClosed(Unparse(Cleaned(p)))
    decreases |p.links|
  {
    if p.links != [] {
      CleanedIsCanonical(Rest(p));
      CleanAuthorityStaysInside(p.links[0].authority);
      CleanedRest(p);
      hide Cleaned, CleanAuthority, NoTerminator, Find;
    }
  }

  /** The output has the same links as the input, each with a clean authority: nothing else was
      added, dropped or moved, and no link of the output holds an '@'. */
  lemma OutputIsCleaned(s: string)
    ensures Parse(Clean(s)) == Cleaned(Parse(s))
    ensures forall l :: l in Parse(Clean(s)).links ==> '@' !in l.authority
  {
    ParseIsCanonical(s);
    CleanedIsCanonical(Parse(s));
    ParseUnparse(Cleaned(Parse(s)));
  }

  /** A text up to its first "://", an authority that ends at the text's end or at one of the six
      characters that close it, and the rest. */
  predicate IsCutOf(text: string, authority: string, rest: string) {
    && |text| >= 3 && text[|text| - 3..] == "://"
    && (forall j :: 0 <= j < |text| - 3 ==> !(text[j] == ':' && text[j + 1] == '/' && text[j + 2] == '/'))
    && (forall j :: 0 <= j < |authority| ==> authority[j] !in "/?# \"'")
    && (rest == "" || rest[0] in "/?# \"'")
  }

  /** User information is everything up to the last '@' of an authority; it is replaced, and the
      rest of the text is treated the same way. */
  lemma UserInfoIsReplaced(text: string, user: string, host: string, rest: string)
    requires IsCutOf(text, user + "@" + host, rest) && '@' !in host
    ensures Clean(text + (user + "@" + host) + rest) == text + ("redacted:" + host) + Clean(rest)
  {
    hide Clean, Find, Host, FirstCut;
    CutsThere(text, user + "@" + host, rest);
    CleanStep(text + (user + "@" + host) + rest);
    HostIs(user, host);
  }

  /** Without an '@' the authority stays, and without "://" the whole text. */
  lemma OtherTextStays(text: string, authority: string, rest: string)
    ensures IsCutOf(text, authority, rest) && '@' !in authority ==>
      Clean(text + authority + rest) == text + authority + Clean(rest)
    ensures (forall j :: 0 <= j < |text| - 2 ==> !(text[j] == ':' && text[j + 1] == '/' && text[j + 2] == '/')) ==>
      Clean(text) == text
  {
    hide Clean, Find, FirstCut;
    if IsCutOf(text, authority, rest) && '@' !in authority {
      CutsThere(text, authority, rest);
      CleanStep(text + authority + rest);
    }
    if forall j :: 0 <= j < |text| - 2 ==> !(text[j] == ':' && text[j + 1] == '/' && text[j + 2] == '/') {
      NothingToCut(text);
      CleanStep(text);
    }
  }

  lemma NothingToCut(s: string)
    requires forall j :: 0 <= j < |s| - 2 ==> !(s[j] == ':' && s[j + 1] == '/' && s[j + 2] == '/')
    ensures FirstCut(s) == None
  {
    assert Find(s).Some? ==> SchemeAt(s, Find(s).value);
  }

  lemma CutsThere(text: string, authority: string, rest: string)
    requires IsCutOf(text, authority, rest)
    ensures FirstCut(text + authority + rest) == Some(Cut(Link(text, authority), rest))
  {
    var end := text[|text| - 3..];
    assert end[0] == ':' && end[1] == '/' && end[2] == '/';
    assert SchemeAt(text, |text| - 3);
    assert Find(text) == Some(|text| - 3);
    hide Find, FirstCut;
    LinkIsCut(Link(text, authority), rest);
  }

  lemma {:induction false} HostIs(user: string, host: string)
    requires '@' !in host
    ensures CleanAuthority(user + "@" + host) == "redacted:" + host
  {
    HostOf(user, host);
    assert (user + "@" + host)[|user|] == '@';
  }

  lemma {:induction false} HostOf(user: string, host: string)
    requires '@' !in host
    ensures Host(user + "@" + host) == host
  {
    var a := user + "@" + host;
    assert a[|user|] == '@';
    if user == "" {
      assert a[1..] == host;
    } else {
      assert a[1..] == user[1..] + "@" + host;
      assert a[1..][|user| - 1] == '@';
      HostOf(user[1..], host);
    }
  }

  /** Redacting twice is redacting once. */
  lemma CleanIsIdempotent(s: string)
    ensures Clean(Clean(s)) == Clean(s)
  {
    OutputIsCleaned(s);
    var q := Cleaned(Parse(s));
    assert Cleaned(q) == q;
  }

  /** A text is left alone exactly when no link in it holds an '@'. */
  lemma CleanChangesOnlyUserInfo(s: string)
    ensures Clean(s) == s <==> forall l :: l in Parse(s).links ==> '@' !in l.authority
  {
    OutputIsCleaned(s);
    UnparseParse(s);
    hide Parse, Unparse, CleanAuthority;
    if forall l :: l in Parse(s).links ==> '@' !in l.authority {
      forall i | 0 <= i < |Parse(s).links| ensures Cleaned(Parse(s)).links[i] == Parse(s).links[i] {
        assert Parse(s).links[i] in Parse(s).links;
      }
      assert Cleaned(Parse(s)) == Parse(s);
    }
  }

  // ---- the loop ----

  lemma CleanStep(s: string)
    ensures match FirstCut(s)
      case None => Clean(s) == s
      case Some(c) => Clean(s) == c.link.text + CleanAuthority(c.link.authority) + Clean(c.rest)
  {
    hide FirstCut, CleanAuthority;
    if FirstCut(s).Some? {
      CleanedRest(Parse(s));
      assert Rest(Parse(s)) == Parse(FirstCut(s).value.rest);
    }
  }

  method ScanAuthority(rest: string) returns (end: nat)
    ensures end == AuthorityEnd(rest)
  {
    end := |rest|;
    for j := 0 to |rest|
      invariant end == |rest| && NoTerminator(rest[..j])
    {
      var c := rest[j];
      if c == '/' || c == '?' || c == '#' || c == ' ' || c == '"' || c == '\'' {
        FirstTerminator(rest, j);
        return j;
      }
    }
    FirstTerminator(rest, |rest|);
  }

  method Redact(s: string) returns (out: string)
    ensures out == Clean(s)
  {
    hide Find, AuthorityEnd, Clean, Host, FirstCut;
    hide NoTerminator, StartsClosed, SchemeFree;
    NothingFound(s);
    if Find(s).None? && '@' !in s {
      return s;
    }
    out := "";
    var i := 0;
    assert s[0..] == s;
    while true
      invariant 0 <= i <= |s| && out + Clean(s[i..]) == Clean(s)
      decreases |s| - i
    {
      NothingFound(s[i..]);
      var sch := Find(s[i..]);
      if sch.None? {
        return out + s[i..];
      }
      var start := i + sch.value;
      var rest := s[start + 3..];
      assert rest == s[i..][sch.value + 3..];
      var end := ScanAuthority(rest);
      var authority := rest[..end];
      Found(s, i, out);
      if '@' in authority {
        out := out + s[i..start + 3] + "redacted:" + Host(authority);
      } else {
        out := out + s[i..start + 3 + end];
      }
      i := start + 3 + end;
    }
  }

  lemma NothingFound(s: string)
    ensures Find(s).None? ==> Clean(s) == s
  {
    CleanStep(s);
  }

  /** One round of the loop, with either of the two texts it writes. */
  lemma Found(s: string, i: nat, out: string)
    requires i <= |s| && Find(s[i..]).Some?
    ensures var start := i + Find(s[i..]).value;
      var rest := s[start + 3..];
      var end := AuthorityEnd(rest);
      && start + 3 + end <= |s|
      && out + Clean(s[i..]) == (if '@' in rest[..end]
        then out + s[i..start + 3] + "redacted:" + Host(rest[..end])
        else out + s[i..start + 3 + end]) + Clean(s[start + 3 + end..])
  {
    hide *;
    CutAt(s, i);
    CleanStep(s[i..]);
    var m := Find(s[i..]).value + 3;
    var n := AuthorityEnd(s[i + m..]);
    Assembled(out, s[i..i + m], s[i + m..][..n], Clean(s[i + m + n..]));
  }

  lemma CutAt(s: string, i: nat)
    requires i <= |s| && Find(s[i..]).Some?
    ensures var m := Find(s[i..]).value + 3;
      && i + m <= |s|
      && var n := AuthorityEnd(s[i + m..]);
      && i + m + n <= |s| && s[i..i + m + n] == s[i..i + m] + s[i + m..][..n]
      && FirstCut(s[i..]) == Some(Cut(Link(s[i..i + m], s[i + m..][..n]), s[i + m + n..]))
  {
    hide Find, AuthorityEnd;
    FindFits(s[i..]);
    var m := Find(s[i..]).value + 3;
    assert s[i..][m..] == s[i + m..];
    Slices(s, i, m, AuthorityEnd(s[i + m..]));
  }

  lemma Assembled(o: string, t: string, a: string, z: string)
    ensures o + (t + CleanAuthority(a) + z) ==
      (if '@' in a then o + t + "redacted:" + Host(a) else o + (t + a)) + z
  {
    hide Host;
    Associative(o, t, CleanAuthority(a), z);
    LeftToRight(o, t, "redacted:", Host(a));
  }

  lemma LeftToRight(o: string, t: string, r: string, h: string)
    ensures o + t + r + h == o + (t + (r + h))
  {
  }

  lemma Associative(o: string, t: string, a: string, z: string)
    ensures o + (t + a + z) == o + (t + a) + z
  {
  }

  lemma Slices(s: string, i: nat, m: nat, n: nat)
    requires i + m + n <= |s|
    ensures s[i..][..m] == s[i..i + m]
    ensures s[i..][m..m + n] == s[i + m..][..n]
    ensures s[i..][m + n..] == s[i + m + n..]
    ensures s[i..i + m + n] == s[i..i + m] + s[i + m..][..n]
  {
  }
}
