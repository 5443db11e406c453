/** The routes of the server, and that no two of their patterns fit the same request. */
module RouteTable {
  import opened Results
  import opened Strings
  import opened Router

  const ALL := {"GET", "PUT", "POST", "DELETE"}

  /** Methods and the parts of a path; the part "?" marks an optional segment. */
  datatype Entry = Entry(methods: set<string>, parts: seq<string>)

  function Send(): seq<Entry> {
    [
      Entry({"POST"}, ["", "api", "send", "u"]),
      Entry({"POST"}, ["", "api", "send", "u", "*", "*"]),
      Entry({"POST"}, ["", "api", "send", "text"]),
      Entry({"GET"}, ["", "api", "send", "d", "*"]),
      Entry({"GET"}, ["", "api", "send", "d", "*", "*"])
    ]
  }

  function Vault(): seq<Entry> {
    [
      Entry(ALL, ["", "api", "vault", "folder", "*"]),
      Entry({"GET", "PUT", "DELETE"}, ["", "api", "vault", "file", "*"]),
      Entry({"POST"}, ["", "api", "vault", "u"]),
      Entry({"POST"}, ["", "api", "vault", "u", "*", "*"]),
      Entry({"GET"}, ["", "api", "vault", "d", "*"]),
      Entry({"GET"}, ["", "api", "vault", "d", "*", "*"]),
      Entry(ALL, ["", "api", "share", "file", "*"]),
      Entry(ALL, ["", "api", "share", "folder", "*"])
    ]
  }

  function Pass(): seq<Entry> {
    [
      Entry(ALL, ["", "api", "pass", "folder", "*"]),
      Entry({"POST"}, ["", "api", "pass", "entry", "*"]),
      Entry({"DELETE"}, ["", "api", "pass", "entry", "*"])
    ]
  }

  function Auth(): seq<Entry> {
    [
      Entry({"POST"}, ["", "api", "verify", "email"]),
      Entry({"POST"}, ["", "api", "verify", "account"]),
      Entry({"GET"}, ["", "api", "session"]),
      Entry({"GET"}, ["", "api", "logout"]),
      Entry({"GET", "POST", "DELETE"}, ["", "api", "2fa"]),
      Entry({"POST"}, ["", "api", "login"]),
      Entry({"POST"}, ["", "api", "signup"]),
      Entry({"GET", "PUT", "DELETE"}, ["", "api", "account"])
    ]
  }

  function Account(): seq<Entry> {
    [
      Entry({"GET"}, ["", "api", "account", "usage"]),
      Entry({"POST"}, ["", "api", "forgot"]),
      Entry({"GET"}, ["", "api", "pubkey"]),
      Entry({"GET"}, ["", "api", "protectedkey"]),
      Entry({"POST", "PUT"}, ["", "api", "change", "email", "*"]),
      Entry({"PUT"}, ["", "api", "change", "password"]),
      Entry({"POST"}, ["", "api", "change", "hint"]),
      Entry({"PUT"}, ["", "api", "account", "recycle", "payment_id"])
    ]
  }

  function Admin(): seq<Entry> {
    [
      Entry({"GET", "PUT", "DELETE"}, ["", "api", "admin", "user", "*"]),
      Entry({"GET", "DELETE"}, ["", "api", "admin", "files", "*"]),
      Entry({"POST", "DELETE"}, ["", "api", "admin", "invites"])
    ]
  }

  function Payments(): seq<Entry> {
    [
      Entry({"POST"}, ["", "stripe", "webhook"]),
      Entry({"GET"}, ["", "stripe", "checkout"]),
      Entry({"POST"}, ["", "btcpay", "webhook"]),
      Entry({"GET"}, ["", "btcpay", "checkout"])
    ]
  }

  function VaultPages(): seq<Entry> {
    [
      Entry({"GET"}, ["", ""]),
      Entry({"GET"}, ["", "send"]),
      Entry({"GET"}, ["", "pass"]),
      Entry({"GET"}, ["", "pass", "*"]),
      Entry({"GET"}, ["", "pass", "*", "entry", "*"]),
      Entry({"GET"}, ["", "vault"]),
      Entry({"GET"}, ["", "vault", "*"]),
      Entry({"GET"}, ["", "vault", "*", "file", "*"]),
      Entry({"GET"}, ["", "send", "*"])
    ]
  }

  function OtherPages(): seq<Entry> {
    [
      Entry({"GET"}, ["", "signup"]),
      Entry({"GET"}, ["", "login"]),
      Entry({"GET"}, ["", "forgot"]),
      Entry({"GET"}, ["", "account"]),
      Entry({"GET"}, ["", "upgrade"]),
      Entry({"GET"}, ["", "verify", "email"]),
      Entry({"GET"}, ["", "change", "email", "*"]),
      Entry({"GET"}, ["", "change", "password"]),
      Entry({"GET"}, ["", "change", "hint"]),
      Entry({"GET"}, ["", "2fa"]),
      Entry({"GET"}, ["", "info"]),
      Entry({"GET"}, ["", "checkout", "complete"]),
      Entry({"GET"}, ["", "admin"])
    ]
  }

  function Misc(): seq<Entry> {
    [
      Entry({"GET"}, ["", "static", "*", "?", "*"]),
      Entry({"GET"}, ["", "static", "*", "?", "*", "*"]),
      Entry({"GET"}, ["", "up"]),
      Entry({"GET"}, ["", "api", "info"]),
      Entry({"GET"}, ["", "proxy.html"]),
      Entry({"GET"}, ["", "proxy.js"]),
      Entry({"GET"}, ["", "StreamSaver.js"]),
      Entry({"GET"}, ["", "sw.js"])
    ]
  }

  /** The table in the order of its registration. */
  function Entries(): seq<Entry> {
    Send() + Vault() + Pass() + Auth() + Account() + Admin() + Payments() + VaultPages() + OtherPages() + Misc()
  }

  function Path(parts: seq<string>): string {
    Join(parts, '/')
  }

  /** The definitions handed to AddRoutes; the handler of an entry is its number. */
  function Defs(entries: seq<Entry>): seq<RouteDef> {
    seq(|entries|, i requires 0 <= i < |entries| => RouteDef(entries[i].methods, Path(entries[i].parts), i))
  }

  // ----- The patterns that the table leads to

  /** All patterns with this number of parts, each once and with optional segments resolved. That the
      table leads to no others is EntriesAreCovered. */
  function Patterns(count: nat): set<seq<string>> {
    if count == 2 then Patterns2()
    else if count == 3 then Patterns3()
    else if count == 4 then Patterns4()
    else if count == 5 then Patterns5()
    else if count == 6 then Patterns6()
    else {}
  }

  function Patterns2(): set<seq<string>> {
    {
      ["", ""],
      ["", "send"],
      ["", "pass"],
      ["", "vault"],
      ["", "signup"],
      ["", "login"],
      ["", "forgot"],
      ["", "account"],
      ["", "upgrade"],
      ["", "2fa"],
      ["", "info"],
      ["", "admin"],
      ["", "up"],
      ["", "proxy.html"],
      ["", "proxy.js"],
      ["", "StreamSaver.js"],
      ["", "sw.js"]
    }
  }

  function Patterns3(): set<seq<string>> {
    {
      ["", "api", "session"],
      ["", "api", "logout"],
      ["", "api", "2fa"],
      ["", "api", "login"],
      ["", "api", "signup"],
      ["", "api", "account"],
      ["", "api", "forgot"],
      ["", "api", "pubkey"],
      ["", "api", "protectedkey"],
      ["", "stripe", "webhook"],
      ["", "stripe", "checkout"],
      ["", "btcpay", "webhook"],
      ["", "btcpay", "checkout"],
      ["", "pass", "*"],
      ["", "vault", "*"],
      ["", "send", "*"],
      ["", "verify", "email"],
      ["", "change", "password"],
      ["", "change", "hint"],
      ["", "checkout", "complete"],
      ["", "api", "info"]
    }
  }

  function Patterns4(): set<seq<string>> {
    {
      ["", "api", "send", "u"],
      ["", "api", "send", "text"],
      ["", "api", "vault", "u"],
      ["", "api", "verify", "email"],
      ["", "api", "verify", "account"],
      ["", "api", "account", "usage"],
      ["", "api", "change", "password"],
      ["", "api", "change", "hint"],
      ["", "api", "admin", "invites"],
      ["", "change", "email", "*"],
      ["", "static", "*", "*"]
    }
  }

  function Patterns5(): set<seq<string>> {
    {
      ["", "api", "send", "d", "*"],
      ["", "api", "vault", "folder", "*"],
      ["", "api", "vault", "file", "*"],
      ["", "api", "vault", "d", "*"],
      ["", "api", "share", "file", "*"],
      ["", "api", "share", "folder", "*"],
      ["", "api", "pass", "folder", "*"],
      ["", "api", "pass", "entry", "*"],
      ["", "api", "change", "email", "*"],
      ["", "api", "account", "recycle", "payment_id"],
      ["", "api", "admin", "user", "*"],
      ["", "api", "admin", "files", "*"],
      ["", "pass", "*", "entry", "*"],
      ["", "vault", "*", "file", "*"],
      ["", "static", "*", "*", "*"]
    }
  }

  function Patterns6(): set<seq<string>> {
    {
      ["", "api", "send", "u", "*", "*"],
      ["", "api", "send", "d", "*", "*"],
      ["", "api", "vault", "u", "*", "*"],
      ["", "api", "vault", "d", "*", "*"],
      ["", "static", "*", "*", "*", "*"]
    }
  }

  /** Literals differ in one of the five positions that the table uses. */
  predicate DifferEarly(a: seq<string>, b: seq<string>) {
    DifferAt(a, b, 1) || DifferAt(a, b, 2) || DifferAt(a, b, 3) || DifferAt(a, b, 4) || DifferAt(a, b, 5)
  }

  ghost predicate Disjoint(patterns: set<seq<string>>) {
    forall a, b :: a in patterns && b in patterns && a != b ==> Separated(a, b)
  }

  lemma Disjoint2()
    ensures Disjoint(Patterns2())
  {
    forall a, b | a in Patterns2() && b in Patterns2() && a != b
      ensures Separated(a, b)
    {
      assert DifferEarly(a, b);
    }
  }

  lemma Disjoint3()
    ensures Disjoint(Patterns3())
  {
    forall a, b | a in Patterns3() && b in Patterns3() && a != b
      ensures Separated(a, b)
    {
      assert DifferEarly(a, b);
    }
  }

  lemma Disjoint4()
    ensures Disjoint(Patterns4())
  {
    forall a, b | a in Patterns4() && b in Patterns4() && a != b
      ensures Separated(a, b)
    {
      assert DifferEarly(a, b);
    }
  }

  lemma Disjoint5()
    ensures Disjoint(Patterns5())
  {
    forall a, b | a in Patterns5() && b in Patterns5() && a != b
      ensures Separated(a, b)
    {
      assert DifferEarly(a, b);
    }
  }

  lemma Disjoint6()
    ensures Disjoint(Patterns6())
  {
    forall a, b | a in Patterns6() && b in Patterns6() && a != b
      ensures Separated(a, b)
    {
      assert DifferEarly(a, b);
    }
  }

  /** Any two patterns of the table are separated, whatever their methods. */
  lemma PatternsAreDisjoint(count: nat)
    ensures Disjoint(Patterns(count))
  {
    Disjoint2();
    Disjoint3();
    Disjoint4();
    Disjoint5();
    Disjoint6();
    hide Patterns2, Patterns3, Patterns4, Patterns5, Patterns6, Separated;
  }

  /** A part without separator and without the mark of an optional segment. */
  predicate IsPlainWord(w: string) {
    '/' !in w && '?' !in w
  }

  predicate IsPlain(parts: seq<string>) {
    forall k :: 0 <= k < |parts| ==> IsPlainWord(parts[k])
  }

  lemma PlainWords1()
    ensures IsPlainWord("") && IsPlainWord("send") && IsPlainWord("pass")
    ensures IsPlainWord("vault") && IsPlainWord("signup") && IsPlainWord("login")
    ensures IsPlainWord("forgot") && IsPlainWord("account") && IsPlainWord("upgrade")
    ensures IsPlainWord("2fa")
  {
  }

  lemma PlainWords2()
    ensures IsPlainWord("info") && IsPlainWord("admin") && IsPlainWord("up")
    ensures IsPlainWord("proxy.html") && IsPlainWord("proxy.js") && IsPlainWord("StreamSaver.js")
    ensures IsPlainWord("sw.js") && IsPlainWord("api") && IsPlainWord("session")
    ensures IsPlainWord("logout")
  {
  }

  lemma PlainWords3()
    ensures IsPlainWord("pubkey") && IsPlainWord("protectedkey") && IsPlainWord("stripe")
    ensures IsPlainWord("webhook") && IsPlainWord("checkout") && IsPlainWord("btcpay")
    ensures IsPlainWord("*") && IsPlainWord("verify") && IsPlainWord("email")
    ensures IsPlainWord("change")
  {
  }

  lemma PlainWords4()
    ensures IsPlainWord("password") && IsPlainWord("hint") && IsPlainWord("complete")
    ensures IsPlainWord("u") && IsPlainWord("text") && IsPlainWord("usage")
    ensures IsPlainWord("invites") && IsPlainWord("static") && IsPlainWord("d")
    ensures IsPlainWord("folder")
  {
  }

  lemma PlainWords5()
    ensures IsPlainWord("file") && IsPlainWord("share") && IsPlainWord("entry")
    ensures IsPlainWord("recycle") && IsPlainWord("payment_id") && IsPlainWord("user")
    ensures IsPlainWord("files")
  {
  }

  lemma WordsArePlain()
    ensures IsPlainWord("") && IsPlainWord("send") && IsPlainWord("pass")
    ensures IsPlainWord("vault") && IsPlainWord("signup") && IsPlainWord("login")
    ensures IsPlainWord("forgot") && IsPlainWord("account") && IsPlainWord("upgrade")
    ensures IsPlainWord("2fa") && IsPlainWord("info") && IsPlainWord("admin")
    ensures IsPlainWord("up") && IsPlainWord("proxy.html") && IsPlainWord("proxy.js")
    ensures IsPlainWord("StreamSaver.js") && IsPlainWord("sw.js") && IsPlainWord("api")
    ensures IsPlainWord("session") && IsPlainWord("logout") && IsPlainWord("pubkey")
    ensures IsPlainWord("protectedkey") && IsPlainWord("stripe") && IsPlainWord("webhook")
    ensures IsPlainWord("checkout") && IsPlainWord("btcpay") && IsPlainWord("*")
    ensures IsPlainWord("verify") && IsPlainWord("email") && IsPlainWord("change")
    ensures IsPlainWord("password") && IsPlainWord("hint") && IsPlainWord("complete")
    ensures IsPlainWord("u") && IsPlainWord("text") && IsPlainWord("usage")
    ensures IsPlainWord("invites") && IsPlainWord("static") && IsPlainWord("d")
    ensures IsPlainWord("folder") && IsPlainWord("file") && IsPlainWord("share")
    ensures IsPlainWord("entry") && IsPlainWord("recycle") && IsPlainWord("payment_id")
    ensures IsPlainWord("user") && IsPlainWord("files")
  {
    hide IsPlainWord;
    PlainWords1();
    PlainWords2();
    PlainWords3();
    PlainWords4();
    PlainWords5();
  }

  lemma PatternsArePlain(count: nat)
    ensures forall p :: p in Patterns(count) ==> |p| == count >= 2 && IsPlain(p)
  {
    Plain2();
    Plain3();
    Plain4();
    Plain5();
    Plain6();
    hide Patterns2, Patterns3, Patterns4, Patterns5, Patterns6, IsPlain;
  }

  lemma Plain2()
    ensures forall p :: p in Patterns2() ==> |p| == 2 && IsPlain(p)
  {
    WordsArePlain();
    hide IsPlainWord;
    forall p | p in Patterns2()
      ensures |p| == 2 && IsPlain(p)
    {
      assert |p| == 2;
      assert IsPlainWord(p[0]) && IsPlainWord(p[1]);
    }
  }

  lemma Plain3()
    ensures forall p :: p in Patterns3() ==> |p| == 3 && IsPlain(p)
  {
    WordsArePlain();
    hide IsPlainWord;
    forall p | p in Patterns3()
      ensures |p| == 3 && IsPlain(p)
    {
      assert |p| == 3;
      assert IsPlainWord(p[0]) && IsPlainWord(p[1]) && IsPlainWord(p[2]);
    }
  }

  lemma Plain4()
    ensures forall p :: p in Patterns4() ==> |p| == 4 && IsPlain(p)
  {
    WordsArePlain();
    hide IsPlainWord;
    forall p | p in Patterns4()
      ensures |p| == 4 && IsPlain(p)
    {
      assert |p| == 4;
      assert IsPlainWord(p[0]) && IsPlainWord(p[1]) && IsPlainWord(p[2]) && IsPlainWord(p[3]);
    }
  }

  lemma Plain5()
    ensures forall p :: p in Patterns5() ==> |p| == 5 && IsPlain(p)
  {
    WordsArePlain();
    hide IsPlainWord;
    forall p | p in Patterns5()
      ensures |p| == 5 && IsPlain(p)
    {
      assert |p| == 5;
      assert IsPlainWord(p[0]) && IsPlainWord(p[1]) && IsPlainWord(p[2]) && IsPlainWord(p[3]) && IsPlainWord(p[4]);
    }
  }

  lemma Plain6()
    ensures forall p :: p in Patterns6() ==> |p| == 6 && IsPlain(p)
  {
    WordsArePlain();
    hide IsPlainWord;
    forall p | p in Patterns6()
      ensures |p| == 6 && IsPlain(p)
    {
      assert |p| == 6;
      assert IsPlainWord(p[0]) && IsPlainWord(p[1]) && IsPlainWord(p[2]) && IsPlainWord(p[3]) && IsPlainWord(p[4]) && IsPlainWord(p[5]);
    }
  }

  // ----- From the entries to the patterns

  /** The entry leads to patterns of the table: itself, or without and with its optional segment. */
  predicate IsCovered(e: Entry) {
    e.parts in Patterns(|e.parts|)
    || (|e.parts| > 4 && e.parts[3] == "?" && IsPlain(e.parts[..3]) && IsPlain(e.parts[4..])
        && e.parts[..3] + e.parts[4..] in Patterns(|e.parts| - 1)
        && e.parts[..3] + ["*"] + e.parts[4..] in Patterns(|e.parts|))
  }

  lemma SendIsCovered()
    ensures forall e :: e in Send() ==> IsCovered(e)
  {
  }

  lemma VaultIsCovered()
    ensures forall e :: e in Vault() ==> IsCovered(e)
  {
  }

  lemma PassIsCovered()
    ensures forall e :: e in Pass() ==> IsCovered(e)
  {
  }

  lemma AuthIsCovered()
    ensures forall e :: e in Auth() ==> IsCovered(e)
  {
  }

  lemma AccountIsCovered()
    ensures forall e :: e in Account() ==> IsCovered(e)
  {
  }

  lemma AdminIsCovered()
    ensures forall e :: e in Admin() ==> IsCovered(e)
  {
  }

  lemma PaymentsIsCovered()
    ensures forall e :: e in Payments() ==> IsCovered(e)
  {
  }

  lemma VaultPagesIsCovered()
    ensures forall e :: e in VaultPages() ==> IsCovered(e)
  {
  }

  lemma OtherPagesIsCovered()
    ensures forall e :: e in OtherPages() ==> IsCovered(e)
  {
  }

  lemma MiscIsCovered()
    ensures forall e :: e in Misc() ==> IsCovered(e)
  {
    StaticIsCovered();
  }

  lemma StaticIsCovered()
    ensures IsCovered(Entry({"GET"}, ["", "static", "*", "?", "*"]))
    ensures IsCovered(Entry({"GET"}, ["", "static", "*", "?", "*", "*"]))
  {
    WordsArePlain();
    hide IsPlainWord;
    var one, two := ["", "static", "*", "?", "*"], ["", "static", "*", "?", "*", "*"];
    assert one[..3] == two[..3] == ["", "static", "*"] && one[4..] == ["*"] && two[4..] == ["*", "*"];
    assert one[..3] + one[4..] == ["", "static", "*", "*"] && one[..3] + ["*"] + one[4..] == ["", "static", "*", "*", "*"];
    assert two[..3] + two[4..] == ["", "static", "*", "*", "*"];
    assert two[..3] + ["*"] + two[4..] == ["", "static", "*", "*", "*", "*"];
  }

  lemma EntriesAreCovered()
    ensures forall e :: e in Entries() ==> IsCovered(e)
  {
    SendIsCovered();
    VaultIsCovered();
    PassIsCovered();
    AuthIsCovered();
    AccountIsCovered();
    AdminIsCovered();
    PaymentsIsCovered();
    VaultPagesIsCovered();
    OtherPagesIsCovered();
    MiscIsCovered();
    hide IsCovered, Send, Vault, Pass, Auth, Account, Admin, Payments, VaultPages, OtherPages, Misc;
  }

  // ----- From the patterns to the router

  lemma {:induction false} JoinHas(parts: seq<string>, c: char)
    requires c != '/' && forall k :: 0 <= k < |parts| ==> c !in parts[k]
    ensures c !in Path(parts)
  {
    if parts == [] {
    } else {
      JoinHas(parts[1..], c);
    }
  }

  lemma {:induction false} NoOptional(s: string)
    requires '?' !in s
    ensures !Contains(s, "/?")
  {
    if s == "" {
    } else {
      assert |s| >= 2 ==> s[..2][1] != '?';
      NoOptional(s[1..]);
    }
  }

  lemma {:induction false} OptionalAt(x: string, y: string, to: string)
    requires '?' !in x
    ensures Contains(x + "/?" + y, "/?") && ReplaceFirst(x + "/?" + y, "/?", to) == x + to + y
  {
    var s := x + "/?" + y;
    if x == "" {
      assert s[..2] == "/?" && s[2..] == y;
    } else {
      assert s[..2][1] == if |x| >= 2 then x[1] else '/';
      assert s[1..] == x[1..] + "/?" + y;
      OptionalAt(x[1..], y, to);
    }
  }

  lemma {:induction false} PathConcat(a: seq<string>, b: seq<string>)
    requires a != [] && b != []
    ensures Path(a + b) == Path(a) + ("/" + Path(b))
  {
    if |a| == 1 {
      JoinCons(a[0], b);
      assert a + b == [a[0]] + b;
    } else {
      PathConcat(a[1..], b);
      assert a + b == [a[0]] + (a[1..] + b);
      JoinCons(a[0], a[1..] + b);
      JoinCons(a[0], a[1..]);
      assert a == [a[0]] + a[1..];
    }
  }

  lemma PathsOfPlain(parts: seq<string>)
    requires IsPlain(parts)
    ensures Paths(Path(parts)) == [Path(parts)]
  {
    JoinHas(parts, '?');
    NoOptional(Path(parts));
  }

  lemma PathAround(a: seq<string>, middle: string, b: seq<string>)
    requires a != [] && b != []
    ensures Path(a + [middle] + b) == Path(a) + ("/" + middle) + ("/" + Path(b))
  {
    assert Path([middle]) == middle;
    hide Path;
    PathConcat([middle], b);
    PathConcat(a, [middle] + b);
    assert a + [middle] + b == a + ([middle] + b);
  }

  lemma PathsAround(x: string, y: string)
    requires '?' !in x
    ensures Paths(x + "/?" + y) == [x + y, x + "/*" + y]
  {
    OptionalAt(x, y, "");
    OptionalAt(x, y, "/*");
    hide ReplaceFirst, Contains;
    assert x + "" + y == x + y;
  }

  lemma PathsOfOptional(a: seq<string>, b: seq<string>)
    requires IsPlain(a) && a != [] && b != []
    ensures Paths(Path(a + ["?"] + b)) == [Path(a + b), Path(a + ["*"] + b)]
  {
    JoinHas(a, '?');
    assert "/" + "?" == "/?" && "/" + "*" == "/*";
    hide Path, Paths;
    PathAround(a, "?", b);
    PathAround(a, "*", b);
    PathConcat(a, b);
    PathsAround(Path(a), "/" + Path(b));
  }

  /** The path is that of a pattern of the table. */
  ghost predicate IsKnown(path: string) {
    exists p :: IsPatternOf(path, p)
  }

  ghost predicate IsPatternOf(path: string, p: seq<string>) {
    p in Patterns(|p|) && path == Path(p)
  }

  lemma CoveredPaths(e: Entry)
    requires IsCovered(e)
    ensures forall path :: path in Paths(Path(e.parts)) ==> IsKnown(path)
  {
    hide Patterns, Paths;
    PatternsArePlain(|e.parts|);
    if e.parts in Patterns(|e.parts|) {
      PathsOfPlain(e.parts);
      assert IsPatternOf(Path(e.parts), e.parts);
    } else {
      var a, b := e.parts[..3], e.parts[4..];
      assert e.parts == a + ["?"] + b;
      PathsOfOptional(a, b);
      assert IsPatternOf(Path(a + b), a + b) && IsPatternOf(Path(a + ["*"] + b), a + ["*"] + b);
    }
  }

  lemma {:induction false} RegisteredIsKnown(entries: seq<Entry>, defs: seq<RouteDef>, r: Route)
    requires |defs| == |entries| && forall i :: 0 <= i < |defs| ==> defs[i].path == Path(entries[i].parts)
    requires forall e :: e in entries ==> IsCovered(e)
    requires HandlerOf(defs, r).Some?
    ensures IsKnown(r.path)
  {
    var n := |defs| - 1;
    if Defines(defs[n], r) {
      assert entries[n] in entries;
      CoveredPaths(entries[n]);
    } else {
      RegisteredIsKnown(entries[..n], defs[..n], r);
    }
  }

  lemma KnownSplits(path: string, p: seq<string>)
    requires IsPatternOf(path, p)
    ensures Split(path, '/') == p && |p| >= 2
  {
    hide Patterns;
    PatternsArePlain(|p|);
    forall k | 0 <= k < |p|
      ensures '/' !in p[k]
    {
      assert IsPlainWord(p[k]);
    }
    SplitJoin(p, '/');
  }

  /** All routes that the table leads to are separated, method by method and even across methods. */
  lemma KnownAreSeparated(routes: set<Route>)
    requires forall r :: r in routes ==> IsKnown(r.path)
    ensures AllSeparated(routes)
  {
    hide Patterns, Separated;
    forall r, q | r in routes && q in routes && r != q && r.verb == q.verb
      ensures Separated(Split(r.path, '/'), Split(q.path, '/'))
    {
      var p :| IsPatternOf(r.path, p);
      var p' :| IsPatternOf(q.path, p');
      KnownSplits(r.path, p);
      KnownSplits(q.path, p');
      PatternsAreDisjoint(|p|);
      if |p| != |p'| {
        DifferentLengths(p, p');
      }
    }
  }

  lemma DifferentLengths(a: seq<string>, b: seq<string>)
    requires |a| != |b|
    ensures Separated(a, b)
  {
  }

  lemma DefsAreRooted(entries: seq<Entry>)
    requires forall e :: e in entries ==> IsCovered(e)
    ensures forall k :: 0 <= k < |entries| ==> IsRooted(Defs(entries)[k])
  {
    hide Patterns, Paths, IsCovered;
    forall k | 0 <= k < |entries|
      ensures IsRooted(Defs(entries)[k])
    {
      CoveredPaths(entries[k]);
      forall j | 0 <= j < |Paths(Path(entries[k].parts))|
        ensures '/' in Paths(Path(entries[k].parts))[j]
      {
        var path := Paths(Path(entries[k].parts))[j];
        assert IsKnown(path);
        var p :| IsPatternOf(path, p);
        KnownSplits(path, p);
        SlashSplits(path);
      }
    }
  }

  /** The router that the server starts with: its routes are exactly those of the table, and at most
      one of them is for any request, so that the order of the map does not matter. */
  method ServerRouter() returns (r: Router)
    ensures fresh(r) && r.Valid() && AllSeparated(r.routes.Keys)
    ensures forall x :: x in r.routes <==> HandlerOf(Defs(Entries()), x).Some?
    ensures forall x :: x in r.routes ==> r.routes[x] == HandlerOf(Defs(Entries()), x).value
    ensures (forall k :: 0 <= k < |Defs(Entries())| ==> IsRooted(Defs(Entries())[k]))
            && r.Reserved() == ReservedBy(Defs(Entries()))
  {
    hide Entries, HandlerOf, ReservedBy, IsKnown, IsCovered;
    var entries := Entries();
    EntriesAreCovered();
    DefsAreRooted(entries);
    r := new Router();
    r.AddRoutes(Defs(entries));
    forall x | x in r.routes
      ensures IsKnown(x.path)
    {
      RegisteredIsKnown(entries, Defs(entries), x);
    }
    KnownAreSeparated(r.routes.Keys);
    assert {} + ReservedBy(Defs(entries)) == ReservedBy(Defs(entries));
  }

  /** A request is answered by the one handler of the table that is for it, or not found. */
  method Serve(verb: string, path: string) returns (handler: Option<nat>)
    requires '/' in path
    ensures handler.Some? ==> exists x :: IsTheRoute(x, verb, path) && handler == HandlerOf(Defs(Entries()), x)
    ensures handler.None? ==> forall x :: !IsTheRoute(x, verb, path)
    ensures forall x, y :: IsTheRoute(x, verb, path) && IsTheRoute(y, verb, path) ==> x == y
  {
    hide Entries, HandlerOf, ReservedBy;
    var r := ServerRouter();
    handler := r.ServeHTTP(verb, path);
    forall x, y | IsTheRoute(x, verb, path) && IsTheRoute(y, verb, path)
      ensures x == y
    {
      OrderDoesNotMatter(r.routes.Keys, r.Reserved(), verb, path, x);
    }
  }

  /** The route is in the table and for the request. */
  ghost predicate IsTheRoute(x: Route, verb: string, path: string)
    requires '/' in path
  {
    && (forall k :: 0 <= k < |Defs(Entries())| ==> IsRooted(Defs(Entries())[k]))
    && HandlerOf(Defs(Entries()), x).Some? && IsFor(ReservedBy(Defs(Entries())), x, verb, path)
  }
}
