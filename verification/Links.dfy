/** Share links: escaping for display, printing with Format, and parseLink. */
module Links {
  import opened Results
  import opened Strings
  import opened Multipart
  import opened Base64
  import opened Router

  // ----- Escaping

  function EscapeString(s: string): string {
    ReplaceAll(ReplaceAll(s, "*", "\\*"), "_", "\\_")
  }

  function UnescapeString(s: string): string {
    ReplaceAll(ReplaceAll(s, "\\*", "*"), "\\_", "_")
  }

  lemma EscapeCons(c: char, s: string)
    ensures EscapeString([c] + s) ==
              (if c == '*' then "\\*" else if c == '_' then "\\_" else [c]) + EscapeString(s)
  {
    ReplaceAllCons(c, s, '*', "\\*");
    var rest := ReplaceAll(s, "*", "\\*");
    if c == '*' {
      ReplaceAllConcat("\\*", rest, '_', "\\_");
      ReplaceAllNone("\\*", '_', "\\_");
    } else {
      ReplaceAllCons(c, rest, '_', "\\_");
    }
  }

  lemma EscapedStart(s: string)
    ensures EscapeString(s) != "" ==> EscapeString(s)[0] != '*'
  {
  }

  lemma UnderscoreStart(s: string)
    ensures ReplaceAll(s, "_", "\\_") != "" ==> ReplaceAll(s, "_", "\\_")[0] != '_'
  {
  }

  /** ReplaceAll looks at a text that begins with the searched one, or passes one character. */
  lemma ReplaceStep(s: string, from: string, to: string)
    requires from != ""
    ensures HasPrefix(s, from) ==> ReplaceAll(s, from, to) == to + ReplaceAll(s[|from|..], from, to)
    ensures s != "" && !HasPrefix(s, from) ==> ReplaceAll(s, from, to) == [s[0]] + ReplaceAll(s[1..], from, to)
  {
  }

  lemma StarsInFront(c: char, rest: string)
    requires rest != "" ==> rest[0] != '*'
    ensures ReplaceAll((if c == '*' then "\\*" else if c == '_' then "\\_" else [c]) + rest, "\\*", "*") ==
              (if c == '_' then "\\_" else [c]) + ReplaceAll(rest, "\\*", "*")
  {
    hide ReplaceAll;
    if c == '*' {
      var e := "\\*" + rest;
      assert e[..2] == "\\*" && e[2..] == rest;
      ReplaceStep(e, "\\*", "*");
    } else if c == '_' {
      var e := "\\_" + rest;
      assert e[..2] == "\\_" && e[1..] == "_" + rest && ("_" + rest)[1..] == rest;
      ReplaceStep(e, "\\*", "*");
      ReplaceStep("_" + rest, "\\*", "*");
    } else {
      var e := [c] + rest;
      assert e[1..] == rest;
      ReplaceStep(e, "\\*", "*");
    }
  }

  /** The first replacement leaves the text with only its underscores escaped. */
  lemma {:induction false} UnescapeStars(s: string)
    ensures ReplaceAll(EscapeString(s), "\\*", "*") == ReplaceAll(s, "_", "\\_")
  {
    if s == "" {
    } else {
      var c, t := s[0], s[1..];
      UnescapeStars(t);
      EscapeCons(c, t);
      EscapedStart(t);
      assert s == [c] + t;
      ReplaceAllCons(c, t, '_', "\\_");
      hide EscapeString, ReplaceAll;
      StarsInFront(c, EscapeString(t));
    }
  }

  lemma {:induction false} UnescapeUnderscores(s: string)
    ensures ReplaceAll(ReplaceAll(s, "_", "\\_"), "\\_", "_") == s
  {
    if s == "" {
    } else {
      var c, t := s[0], s[1..];
      var rest := ReplaceAll(t, "_", "\\_");
      UnescapeUnderscores(t);
      UnderscoreStart(t);
      assert s == [c] + t;
      ReplaceAllCons(c, t, '_', "\\_");
      var e := ReplaceAll(s, "_", "\\_");
      if c == '_' {
        assert e == "\\_" + rest && e[..2] == "\\_" && e[2..] == rest;
      } else {
        assert e == [c] + rest && e[1..] == rest;
      }
      ReplaceStep(e, "\\_", "_");
    }
  }

  /** Unescaping undoes escaping, for every text. */
  lemma UnescapeUndoesEscape(s: string)
    ensures UnescapeString(EscapeString(s)) == s
  {
    UnescapeStars(s);
    UnescapeUnderscores(s);
  }

  // ----- Parsing

  datatype DownloadResource = DownloadResource(server: string, itemId: string, secret: Option<Bytes>)

  function ParseLink(link: string): DownloadResource {
    var segments := Split(ReplaceFirst(link, "/send", "/"), '/');
    var server := Join(segments[..|segments| - 1], '/');
    var resource := Split(segments[|segments| - 1], '#');
    DownloadResource(server, resource[0], B64Decode(if |resource| > 1 then resource[1] else ""))
  }

  /** The text that showLinkModel hands to the terminal, with item and secret escaped. */
  function ShownLink(server: string, id: string, secret: Bytes): string {
    Formatted("/send/*", server, [EscapeString(id) + "#" + EscapeString(B64Encode(secret))])
  }

  /** The link that a user sees and copies: see RenderedLink. */
  function PrintedLink(server: string, id: string, secret: Bytes): string {
    Formatted("/send/*", server, [Resource(id, secret)])
  }

  function Resource(id: string, secret: Bytes): string {
    id + "#" + B64Encode(secret)
  }

  predicate IsItemId(id: string) {
    '/' !in id && '#' !in id && '*' !in id
  }

  lemma ResourceParts(id: string, secret: Bytes)
    requires IsItemId(id)
    ensures Split(Resource(id, secret), '#') == [id, B64Encode(secret)]
    ensures IsArgument(Resource(id, secret))
  {
    EncodingIsSafe(secret);
    assert Resource(id, secret) == id + ['#'] + B64Encode(secret);
    SplitConcat(id, '#', B64Encode(secret));
    SplitPlain(id, '#');
    SplitPlain(B64Encode(secret), '#');
  }

  lemma LinkParts(arg: string)
    requires IsArgument(arg)
    ensures Join(["", "send", "*"], '/') == "/send/*" && IsEndpoint(["", "send", "*"])
    ensures Blank(Fill(["", "send", "*"], [arg])) == ["", "send", arg]
    ensures Join(["", "send", arg], '/') == "/send" + ("/" + arg)
  {
    JoinThree("*");
    JoinThree(arg);
    assert ["", "send", "*"][1..] == ["send", "*"] && ["send", "*"][1..] == ["*"] && [arg][1..] == [];
    assert arg != "*" && Fill(["*"], [arg]) == [arg] + [] == [arg];
    assert Fill(["send", "*"], [arg]) == ["send"] + [arg] == ["send", arg];
    assert Fill(["", "send", "*"], [arg]) == [""] + ["send", arg] == ["", "send", arg];
    assert ["", "send", arg][1..] == ["send", arg] && ["send", arg][1..] == [arg];
    assert Blank([arg]) == [arg] && Blank(["send", arg]) == ["send", arg];
  }

  lemma JoinThree(last: string)
    ensures Join(["", "send", last], '/') == "/send" + ("/" + last)
  {
    assert ["", "send", last][1..] == ["send", last] && ["send", last][1..] == [last];
    assert Join(["send", last], '/') == "send" + ['/'] + last;
  }

  lemma LinkShape(server: string, id: string, secret: Bytes)
    requires IsItemId(id)
    ensures PrintedLink(server, id, secret) == TrimSuffix(server, "/") + "/send" + ("/" + Resource(id, secret))
  {
    hide Formatted, Fill, Blank, Join, IsEndpoint, B64Encode, TrimSuffix;
    var r := Resource(id, secret);
    ResourceParts(id, secret);
    LinkParts(r);
    FormatFills(["", "send", "*"], server, [r]);
  }

  // ----- What the terminal shows

  lemma {:induction false} ReplaceAfterPlain(a: string, b: string, from: string, to: string)
    requires |from| == 2 && from[0] == '\\' && '\\' !in a
    ensures ReplaceAll(a + b, from, to) == a + ReplaceAll(b, from, to)
  {
    if a == "" {
      assert a + b == b;
    } else {
      var s := a + b;
      assert |s| >= 2 ==> s[..2][0] == a[0];
      assert s[1..] == a[1..] + b && s[0] == a[0];
      ReplaceAfterPlain(a[1..], b, from, to);
      ReplaceStep(s, from, to);
    }
  }

  lemma UnescapeAfterPlain(a: string, b: string)
    requires '\\' !in a
    ensures UnescapeString(a + b) == a + UnescapeString(b)
  {
    ReplaceAfterPlain(a, b, "\\*", "*");
    ReplaceAfterPlain(a, ReplaceAll(b, "\\*", "*"), "\\_", "_");
  }

  lemma EscapeConcat(a: string, b: string)
    ensures EscapeString(a + b) == EscapeString(a) + EscapeString(b)
  {
    ReplaceAllConcat(a, b, '*', "\\*");
    ReplaceAllConcat(ReplaceAll(a, "*", "\\*"), ReplaceAll(b, "*", "\\*"), '_', "\\_");
  }

  lemma {:induction false} EscapedHasNo(s: string, c: char)
    requires c !in s && c != '\\' && c != '_'
    ensures c !in EscapeString(s)
  {
    if s == "" {
    } else {
      assert s == [s[0]] + s[1..];
      EscapeCons(s[0], s[1..]);
      EscapedHasNo(s[1..], c);
    }
  }

  /** The escaped resource is the resource escaped. */
  lemma EscapedResource(id: string, secret: Bytes)
    requires IsItemId(id)
    ensures EscapeString(id) + "#" + EscapeString(B64Encode(secret)) == EscapeString(Resource(id, secret))
    ensures IsArgument(EscapeString(Resource(id, secret)))
  {
    ResourceParts(id, secret);
    EscapedHasNo(Resource(id, secret), '/');
    EscapedHasNo(Resource(id, secret), '*');
    EscapeConcat(id, "#" + B64Encode(secret));
    EscapeConcat("#", B64Encode(secret));
    EscapeCons('#', "");
    assert Resource(id, secret) == id + ("#" + B64Encode(secret)) && ['#'] + "" == "#";
    assert EscapeString("") == "";
    assert EscapeString("#") == "#";
  }

  lemma ShownShape(server: string, id: string, secret: Bytes)
    requires IsItemId(id)
    ensures ShownLink(server, id, secret) ==
              TrimSuffix(server, "/") + "/send" + ("/" + EscapeString(Resource(id, secret)))
  {
    EscapedResource(id, secret);
    hide Formatted, Fill, Blank, Join, IsEndpoint, B64Encode, TrimSuffix, EscapeString, IsArgument;
    var arg := EscapeString(Resource(id, secret));
    LinkParts(arg);
    FormatFills(["", "send", "*"], server, [arg]);
  }

  /** The terminal takes the escapes away, so that the user sees the link with the item and the secret
      as they are; the address of the server has no escapes. */
  lemma RenderedLink(server: string, id: string, secret: Bytes)
    requires IsItemId(id) && '\\' !in server
    ensures UnescapeString(ShownLink(server, id, secret)) == PrintedLink(server, id, secret)
  {
    hide ShownLink, PrintedLink, EscapeString, UnescapeString, Resource, TrimSuffix;
    var res := Resource(id, secret);
    var front := TrimSuffix(server, "/") + "/send" + "/";
    ShownShape(server, id, secret);
    LinkShape(server, id, secret);
    UnescapeUndoesEscape(res);
    NoEscapes(server);
    UnescapeAfterPlain(front, EscapeString(res));
    assert TrimSuffix(server, "/") + "/send" + ("/" + EscapeString(res)) == front + EscapeString(res);
    assert TrimSuffix(server, "/") + "/send" + ("/" + res) == front + res;
  }

  lemma NoEscapes(server: string)
    requires '\\' !in server
    ensures '\\' !in TrimSuffix(server, "/") + "/send" + "/"
  {
  }

  // ----- Finding the server

  lemma NoPrefixAcross(a: string, rest: string)
    requires a != "" && !Contains(a, "/send")
    ensures !HasPrefix(a + "/send" + rest, "/send")
  {
    var s := a + "/send" + rest;
    if |a| < 5 {
      assert s[..5][|a|] == '/' && "/send"[|a|] != '/';
    } else {
      assert s[..5] == a[..5];
    }
  }

  lemma {:induction false} ReplaceSendAfter(a: string, rest: string)
    requires !Contains(a, "/send")
    ensures ReplaceFirst(a + "/send" + rest, "/send", "/") == a + "/" + rest
  {
    var s := a + "/send" + rest;
    if a == "" {
      assert s[..5] == "/send" && s[5..] == rest;
    } else {
      NoPrefixAcross(a, rest);
      ReplaceSendAfter(a[1..], rest);
      assert s[1..] == a[1..] + "/send" + rest;
    }
  }

  lemma {:induction false} ReplaceSendInside(a: string, rest: string)
    requires Contains(a, "/send")
    ensures ReplaceFirst(a + rest, "/send", "/") == ReplaceFirst(a, "/send", "/") + rest
    ensures |ReplaceFirst(a, "/send", "/")| == |a| - 4
  {
    var s := a + rest;
    ContainsLength(a);
    assert s[..5] == a[..5];
    if HasPrefix(a, "/send") {
      assert s[5..] == a[5..] + rest;
    } else {
      ReplaceSendInside(a[1..], rest);
      assert s[1..] == a[1..] + rest;
    }
  }

  lemma {:induction false} ContainsLength(a: string)
    ensures Contains(a, "/send") ==> |a| >= 5
  {
    if a == "" {
    } else {
      ContainsLength(a[1..]);
    }
  }

  /** What stands before the last slash goes to the server, the rest is the resource. */
  lemma ParsesTo(link: string, front: string, id: string, secret: Bytes)
    requires IsItemId(id) && ReplaceFirst(link, "/send", "/") == front + ['/'] + Resource(id, secret)
    ensures ParseLink(link) == DownloadResource(front, id, Some(secret))
  {
    EncodingIsSafe(secret);
    ResourceParts(id, secret);
    SplitAtLast(front, '/', Resource(id, secret));
    EncodingRoundTrip(secret);
  }

  lemma PlainServer(a: string, id: string, secret: Bytes)
    requires IsItemId(id) && !Contains(a, "/send")
    ensures ParseLink(a + "/send" + ("/" + Resource(id, secret))) == DownloadResource(a + "/", id, Some(secret))
  {
    hide ParseLink, Contains, ReplaceFirst, B64Encode;
    var res := Resource(id, secret);
    ReplaceSendAfter(a, "/" + res);
    assert a + "/" + ("/" + res) == (a + "/") + ['/'] + res;
    ParsesTo(a + "/send" + ("/" + res), a + "/", id, secret);
  }

  lemma ServerWithSend(a: string, id: string, secret: Bytes)
    requires IsItemId(id) && Contains(a, "/send")
    ensures ParseLink(a + "/send" + ("/" + Resource(id, secret))) ==
              DownloadResource(ReplaceFirst(a, "/send", "/") + "/send", id, Some(secret))
  {
    hide ParseLink, Contains, ReplaceFirst, B64Encode;
    var res, b := Resource(id, secret), ReplaceFirst(a, "/send", "/");
    ReplaceSendInside(a, "/send" + ("/" + res));
    assert a + "/send" + ("/" + res) == a + ("/send" + ("/" + res));
    assert b + ("/send" + ("/" + res)) == (b + "/send") + ['/'] + res;
    ParsesTo(a + "/send" + ("/" + res), b + "/send", id, secret);
  }

  lemma TrimSlash(a: string, b: string)
    ensures TrimSuffix(a + "/", "/") == a && TrimSuffix(b + "/send", "/") == b + "/send"
  {
    assert (a + "/")[..|a|] == a;
    assert (b + "/send")[|b| + 4] == 'd';
  }

  /** A printed link is parsed into its item and its secret, and into the server, up to a slash at
      the end, exactly if the address of the server does not contain "/send". */
  lemma LinkRoundTrip(server: string, id: string, secret: Bytes)
    requires IsItemId(id)
    ensures var r := ParseLink(PrintedLink(server, id, secret));
            && r.itemId == id && r.secret == Some(secret)
            && (TrimSuffix(r.server, "/") == TrimSuffix(server, "/") <==> !Contains(TrimSuffix(server, "/"), "/send"))
  {
    hide ParseLink, PrintedLink, Resource, Contains, ReplaceFirst;
    var a := TrimSuffix(server, "/");
    LinkShape(server, id, secret);
    TrimSlash(a, ReplaceFirst(a, "/send", "/"));
    hide TrimSuffix;
    if !Contains(a, "/send") {
      PlainServer(a, id, secret);
    } else {
      ServerWithSend(a, id, secret);
      ReplaceSendInside(a, "");
    }
  }

  /** The resource without a server, as it is shown for the command line, parses as well. */
  lemma ResourceRoundTrip(id: string, secret: Bytes)
    requires IsItemId(id)
    ensures ParseLink(Resource(id, secret)) == DownloadResource("", id, Some(secret))
  {
    var res := Resource(id, secret);
    EncodingIsSafe(secret);
    ResourceParts(id, secret);
    NoSlash(res);
    SplitPlain(res, '/');
    EncodingRoundTrip(secret);
    assert [res][..0] == [];
  }

  lemma {:induction false} NoSlash(s: string)
    requires '/' !in s
    ensures ReplaceFirst(s, "/send", "/") == s
  {
    if s == "" {
    } else {
      assert |s| >= 5 ==> s[..5][0] != '/';
      NoSlash(s[1..]);
      assert [s[0]] + s[1..] == s;
    }
  }
}
