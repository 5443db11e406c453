/** URL-safe Base64 without padding, section 5 of RFC 4648, as the Go client and the web client
    compute it. */
module Base64 {
  import opened Results
  import opened Multipart

  // ----- Bytes and sextets

  /** The four values of six bits in three bytes. */
  function First(x: Byte): (v: int)
    ensures 0 <= v < 64
  {
    x as int / 4
  }

  function Second(x: Byte, y: Byte): (v: int)
    ensures 0 <= v < 64
  {
    x as int % 4 * 16 + y as int / 16
  }

  function Third(y: Byte, z: Byte): (v: int)
    ensures 0 <= v < 64
  {
    y as int % 16 * 4 + z as int / 64
  }

  function Fourth(z: Byte): (v: int)
    ensures 0 <= v < 64
  {
    z as int % 64
  }

  /** The three bytes of four such values. */
  function Byte0(s: int, t: int): Byte
    requires 0 <= s < 64 && 0 <= t < 64
  {
    (s * 4 + t / 16) as Byte
  }

  function Byte1(t: int, u: int): Byte
    requires 0 <= t < 64 && 0 <= u < 64
  {
    (t % 16 * 16 + u / 4) as Byte
  }

  function Byte2(u: int, v: int): Byte
    requires 0 <= u < 64 && 0 <= v < 64
  {
    (u % 4 * 64 + v) as Byte
  }

  lemma Group(x: Byte, y: Byte, z: Byte)
    ensures Byte0(First(x), Second(x, y)) == x
    ensures Byte1(Second(x, y), Third(y, z)) == y
    ensures Byte2(Third(y, z), Fourth(z)) == z
  {
  }

  /** The bytes in groups of three; a missing byte counts as zero and is not spelled. */
  function Sextets(b: Bytes): (s: seq<int>)
    ensures forall k :: 0 <= k < |s| ==> 0 <= s[k] < 64
  {
    if b == [] then []
    else if |b| == 1 then [First(b[0]), Second(b[0], 0)]
    else if |b| == 2 then [First(b[0]), Second(b[0], b[1]), Third(b[1], 0)]
    else [First(b[0]), Second(b[0], b[1]), Third(b[1], b[2]), Fourth(b[2])] + Sextets(b[3..])
  }

  /** None for a single sextet at the end. */
  function FromSextets(s: seq<int>): Option<Bytes>
    requires forall k :: 0 <= k < |s| ==> 0 <= s[k] < 64
  {
    if s == [] then Some([])
    else if |s| == 1 then None
    else if |s| == 2 then Some([Byte0(s[0], s[1])])
    else if |s| == 3 then Some([Byte0(s[0], s[1]), Byte1(s[1], s[2])])
    else
      match FromSextets(s[4..])
      case None => None
      case Some(rest) => Some([Byte0(s[0], s[1]), Byte1(s[1], s[2]), Byte2(s[2], s[3])] + rest)
  }

  lemma {:induction false} SextetsRoundTrip(b: Bytes)
    ensures FromSextets(Sextets(b)) == Some(b)
  {
    hide First, Second, Third, Fourth, Byte0, Byte1, Byte2;
    if b == [] {
    } else if |b| == 1 {
      Group(b[0], 0, 0);
      assert b == [b[0]];
    } else if |b| == 2 {
      Group(b[0], b[1], 0);
      assert b == [b[0], b[1]];
    } else {
      Group(b[0], b[1], b[2]);
      SextetsRoundTrip(b[3..]);
      assert Sextets(b)[4..] == Sextets(b[3..]);
      assert b == [b[0], b[1], b[2]] + b[3..];
    }
  }

  lemma {:induction false} LaterGroups(b: Bytes, g: nat)
    requires 3 * g <= |b|
    ensures var rest := Sextets(b[3 * g..]);
            |Sextets(b)| == 4 * g + |rest| && forall k :: 0 <= k < |rest| ==> Sextets(b)[4 * g + k] == rest[k]
  {
    if g == 0 {
      assert b[0..] == b;
    } else {
      FirstGroup(b);
      hide Sextets;
      var h, c, rest := g - 1, b[3..], Sextets(b[3 * g..]);
      assert 3 * g == 3 + 3 * h && 4 * g == 4 + 4 * h;
      LaterGroups(c, h);
      assert c[3 * h..] == b[3 * g..];
      var s, d := Sextets(b), Sextets(c);
      forall k | 0 <= k < |rest|
        ensures s[4 * g + k] == rest[k]
      {
        assert s[4 + (4 * h + k)] == d[4 * h + k];
      }
    }
  }

  lemma FirstGroup(b: Bytes)
    requires |b| >= 3
    ensures |Sextets(b)| == 4 + |Sextets(b[3..])|
    ensures forall i :: 0 <= i < |Sextets(b[3..])| ==> Sextets(b)[4 + i] == Sextets(b[3..])[i]
  {
    hide First, Second, Third, Fourth;
  }

  /** Each group of three bytes is a number of 24 bits, and its four sextets are the digits of that number
      to the base 64, the highest first. */
  lemma SextetsAreDigits(b: Bytes, g: nat)
    requires 3 * g + 2 < |b|
    ensures var s := Sextets(b);
            && 4 * g + 3 < |s|
            && ((s[4 * g] * 64 + s[4 * g + 1]) * 64 + s[4 * g + 2]) * 64 + s[4 * g + 3] ==
               (b[3 * g] as int * 256 + b[3 * g + 1] as int) * 256 + b[3 * g + 2] as int
  {
    LaterGroups(b, g);
    var s, rest := Sextets(b), b[3 * g..];
    DigitsOf(rest[0], rest[1], rest[2]);
    var d := Sextets(rest);
    assert |d| >= 4 && d[0] == First(rest[0]) && d[1] == Second(rest[0], rest[1]);
    assert d[2] == Third(rest[1], rest[2]) && d[3] == Fourth(rest[2]);
    hide First, Second, Third, Fourth, Sextets;
    assert s[4 * g + 0] == d[0] && s[4 * g + 1] == d[1] && s[4 * g + 2] == d[2] && s[4 * g + 3] == d[3];
  }

  lemma DigitsOf(x: Byte, y: Byte, z: Byte)
    ensures ((First(x) * 64 + Second(x, y)) * 64 + Third(y, z)) * 64 + Fourth(z) == (x as int * 256 + y as int) * 256 + z as int
  {
    assert x as int == x as int / 4 * 4 + x as int % 4;
    assert y as int == y as int / 16 * 16 + y as int % 16;
    assert z as int == z as int / 64 * 64 + z as int % 64;
  }

  /** One or two bytes at the end are filled up with zero bits; g is the number of whole groups. */
  lemma LastSextets(b: Bytes, g: nat)
    requires 3 * g <= |b| <= 3 * g + 2
    ensures var s := Sextets(b);
            && |s| == 4 * g + (if |b| == 3 * g then 0 else |b| - 3 * g + 1)
            && (|b| == 3 * g + 1 ==> s[4 * g] * 64 + s[4 * g + 1] == b[3 * g] as int * 16)
            && (|b| == 3 * g + 2 ==>
                  (s[4 * g] * 64 + s[4 * g + 1]) * 64 + s[4 * g + 2] == (b[3 * g] as int * 256 + b[3 * g + 1] as int) * 4)
  {
    hide First, Second, Third, Sextets;
    LaterGroups(b, g);
    var rest, s := b[3 * g..], Sextets(b);
    LastGroup(rest);
    var d := Sextets(rest);
    assert rest == [] <==> |b| == 3 * g;
    if |b| == 3 * g + 1 {
      assert s[4 * g + 0] == d[0] && s[4 * g + 1] == d[1];
    } else if |b| == 3 * g + 2 {
      assert s[4 * g + 0] == d[0] && s[4 * g + 1] == d[1] && s[4 * g + 2] == d[2];
    }
  }

  lemma LastGroup(rest: Bytes)
    ensures rest == [] ==> Sextets(rest) == []
    ensures |rest| == 1 ==> |Sextets(rest)| == 2 && Sextets(rest)[0] * 64 + Sextets(rest)[1] == rest[0] as int * 16
    ensures |rest| == 2 ==>
              var d := Sextets(rest); |d| == 3 && (d[0] * 64 + d[1]) * 64 + d[2] == (rest[0] as int * 256 + rest[1] as int) * 4
  {
    if |rest| == 1 {
      DigitsOf(rest[0], 0, 0);
    } else if |rest| == 2 {
      DigitsOf(rest[0], rest[1], 0);
    }
  }

  // ----- Letters

  datatype Alphabet = Standard | UrlSafe

  function Letter(v: int, a: Alphabet): char
    requires 0 <= v < 64
  {
    if v < 26 then ('A' as int + v) as char
    else if v < 52 then ('a' as int + v - 26) as char
    else if v < 62 then ('0' as int + v - 52) as char
    else if v == 62 then if a.UrlSafe? then '-' else '+'
    else if a.UrlSafe? then '_' else '/'
  }

  function Index(c: char, a: Alphabet): Option<int> {
    if 'A' <= c <= 'Z' then Some(c as int - 'A' as int)
    else if 'a' <= c <= 'z' then Some(c as int - 'a' as int + 26)
    else if '0' <= c <= '9' then Some(c as int - '0' as int + 52)
    else if c == (if a.UrlSafe? then '-' else '+') then Some(62)
    else if c == (if a.UrlSafe? then '_' else '/') then Some(63)
    else None
  }

  function Spell(s: seq<int>, a: Alphabet): (r: string)
    requires forall k :: 0 <= k < |s| ==> 0 <= s[k] < 64
    ensures |r| == |s| && '=' !in r
  {
    seq(|s|, k requires 0 <= k < |s| => Letter(s[k], a))
  }

  predicate AllLetters(r: string, a: Alphabet) {
    forall k :: 0 <= k < |r| ==> Index(r[k], a).Some?
  }

  function Indices(r: string, a: Alphabet): (s: seq<int>)
    requires AllLetters(r, a)
    ensures forall k :: 0 <= k < |s| ==> 0 <= s[k] < 64
  {
    seq(|r|, k requires 0 <= k < |r| => Index(r[k], a).value)
  }

  /** Bytes from letters of an alphabet, without padding. */
  function FromLetters(r: string, a: Alphabet): Option<Bytes> {
    if AllLetters(r, a) then FromSextets(Indices(r, a)) else None
  }

  lemma IndexOfLetter(v: int, a: Alphabet)
    requires 0 <= v < 64
    ensures Index(Letter(v, a), a) == Some(v)
  {
  }

  /** The alphabets of sections 4 and 5 of RFC 4648: capitals, small letters and digits in their order, and
      two signs that depend on the alphabet. */
  lemma LettersAreStandard(v: int, a: Alphabet)
    requires 0 <= v < 64
    ensures Letter(0, a) == 'A' && Letter(25, a) == 'Z' && Letter(26, a) == 'a' && Letter(51, a) == 'z'
    ensures Letter(52, a) == '0' && Letter(61, a) == '9'
    ensures v !in {25, 51, 61, 62, 63} ==> Letter(v + 1, a) as int == Letter(v, a) as int + 1
    ensures Letter(62, Standard) == '+' && Letter(63, Standard) == '/'
    ensures Letter(62, UrlSafe) == '-' && Letter(63, UrlSafe) == '_'
  {
  }

  /** The first test vectors of section 10 of RFC 4648, without padding. */
  lemma TestVectors()
    ensures B64Encode([]) == "" && B64Encode([102]) == "Zg" && B64Encode([102, 111]) == "Zm8"
    ensures B64Encode([102, 111, 111]) == "Zm9v"
  {
    assert [102 as Byte, 111, 111][3..] == [];
    assert Sextets([102]) == [25, 32] && Sextets([102, 111]) == [25, 38, 60];
    assert Sextets([102, 111, 111]) == [25, 38, 61, 47] + [] == [25, 38, 61, 47];
  }

  lemma LettersRoundTrip(b: Bytes, a: Alphabet)
    ensures FromLetters(Spell(Sextets(b), a), a) == Some(b)
  {
    hide Sextets, FromSextets, Index, Letter;
    var r := Spell(Sextets(b), a);
    forall k | 0 <= k < |r|
      ensures Index(r[k], a) == Some(Sextets(b)[k])
    {
      IndexOfLetter(Sextets(b)[k], a);
    }
    assert Indices(r, a) == Sextets(b);
    SextetsRoundTrip(b);
  }

  // ----- The Go client

  function B64Encode(b: Bytes): string {
    Spell(Sextets(b), UrlSafe)
  }

  /** DecodeString of base64.RawURLEncoding; None for an error. */
  function B64Decode(s: string): Option<Bytes> {
    FromLetters(s, UrlSafe)
  }

  // ----- The web client

  /** The padding of the standard encoding. */
  function Padding(n: nat): string {
    if n % 3 == 1 then "==" else if n % 3 == 2 then "=" else ""
  }

  function Btoa(b: Bytes): string {
    Spell(Sextets(b), Standard) + Padding(|b|)
  }

  function WithoutPadding(s: string): string {
    if s == "" || s[|s| - 1] != '=' then s else WithoutPadding(s[..|s| - 1])
  }

  /** atob: at most two padding characters, and only if they complete a group of four. */
  function Atob(s: string): Option<Bytes> {
    var n := |s|;
    var t := if n % 4 != 0 || n == 0 || s[n - 1] != '=' then s
             else if s[n - 2] != '=' then s[..n - 1]
             else s[..n - 2];
    FromLetters(t, Standard)
  }

  function Swap(s: string, from: char, to: char): (r: string)
    ensures |r| == |s|
  {
    seq(|s|, k requires 0 <= k < |s| => if s[k] == from then to else s[k])
  }

  /** The string with as many padding characters as make its length a multiple of four. */
  function Padded(s: string): string {
    s + if |s| % 4 == 1 then "===" else if |s| % 4 == 2 then "==" else if |s| % 4 == 3 then "=" else ""
  }

  // ----- The two agree

  lemma SwapSpelled(s: seq<int>)
    requires forall k :: 0 <= k < |s| ==> 0 <= s[k] < 64
    ensures Swap(Swap(Spell(s, Standard), '+', '-'), '/', '_') == Spell(s, UrlSafe)
    ensures Swap(Swap(Spell(s, UrlSafe), '-', '+'), '_', '/') == Spell(s, Standard)
  {
  }

  lemma SextetCount(b: Bytes)
    ensures |Sextets(b)| % 4 == if |b| % 3 == 1 then 2 else if |b| % 3 == 2 then 3 else 0
  {
    hide Sextets;
    var g := |b| / 3;
    var left := |b| - 3 * g;
    assert 0 <= left < 3 && |b| % 3 == left;
    LastSextets(b, g);
    FoursLeft(g, if left == 0 then 0 else left + 1);
  }

  lemma FoursLeft(g: nat, k: nat)
    requires k < 4
    ensures (4 * g + k) % 4 == k
  {
  }

  /** Both clients encode equally. */
  lemma SameEncoding(b: Bytes)
    ensures WithoutPadding(Swap(Swap(Btoa(b), '+', '-'), '/', '_')) == B64Encode(b)
  {
    var plain := Spell(Sextets(b), Standard);
    var swapped := Swap(Swap(Btoa(b), '+', '-'), '/', '_');
    SwapSpelled(Sextets(b));
    assert swapped == B64Encode(b) + Padding(|b|);
    Unpad(B64Encode(b), Padding(|b|));
  }

  lemma {:induction false} Unpad(s: string, padding: string)
    requires '=' !in s && forall k :: 0 <= k < |padding| ==> padding[k] == '='
    ensures WithoutPadding(s + padding) == s
  {
    if padding == "" {
      assert s + padding == s;
    } else {
      assert (s + padding)[..|s + padding| - 1] == s + padding[..|padding| - 1];
      Unpad(s, padding[..|padding| - 1]);
    }
  }

  /** atob takes the padding off again. */
  lemma AtobOfPadded(plain: string)
    requires '=' !in plain && |plain| % 4 != 1
    ensures Atob(Padded(plain)) == FromLetters(plain, Standard)
  {
    hide FromLetters;
    var padded := Padded(plain);
    if |plain| % 4 == 2 {
      assert padded[..|padded| - 2] == plain;
    } else if |plain| % 4 == 3 {
      assert padded[|padded| - 2] == plain[|plain| - 1] && padded[..|padded| - 1] == plain;
    } else {
      assert padded == plain;
    }
  }

  /** What either client encodes, both decode to the same bytes. */
  lemma EncodingRoundTrip(b: Bytes)
    ensures B64Decode(B64Encode(b)) == Some(b)
    ensures Atob(Padded(Swap(Swap(B64Encode(b), '-', '+'), '_', '/'))) == Some(b)
  {
    hide FromLetters, Sextets, Swap, Padded, Atob;
    LettersRoundTrip(b, UrlSafe);
    LettersRoundTrip(b, Standard);
    SwapSpelled(Sextets(b));
    SextetCount(b);
    AtobOfPadded(Spell(Sextets(b), Standard));
  }

  /** The encoding consists of letters that separate nothing in a link. */
  lemma EncodingIsSafe(b: Bytes)
    ensures forall c :: c in B64Encode(b) ==> c != '/' && c != '#' && c != '*' && c != '\\'
  {
  }

  // ----- The web client's two functions

  /** The web client's encoding is that of the Go client. */
  method ToURLSafeBase64(bytes: Bytes) returns (r: string)
    ensures r == B64Encode(bytes)
  {
    var binaryString: Bytes := [];
    for i := 0 to |bytes|
      invariant binaryString == bytes[..i]
    {
      binaryString := binaryString + [bytes[i]];
    }
    assert bytes[..|bytes|] == bytes;
    r := WithoutPadding(Swap(Swap(Btoa(binaryString), '+', '-'), '/', '_'));
    SameEncoding(bytes);
  }

  lemma PadOnce(s: string)
    requires |s| % 4 != 0
    ensures Padded(s + "=") == Padded(s)
  {
    if |s| % 4 == 1 {
      assert (s + "=") + "==" == s + "===";
    } else if |s| % 4 == 2 {
      assert (s + "=") + "=" == s + "==";
    }
  }

  /** The web client's decoding, with the loop that adds padding: whatever either client has
      encoded comes back. */
  method FromURLSafeBase64(b64: string) returns (r: Option<Bytes>)
    ensures r == Atob(Padded(Swap(Swap(b64, '-', '+'), '_', '/')))
    ensures forall bytes :: b64 == B64Encode(bytes) ==> r == Some(bytes)
  {
    var base64 := Swap(Swap(b64, '-', '+'), '_', '/');
    ghost var start := base64;
    while |base64| % 4 != 0
      invariant Padded(base64) == Padded(start)
      decreases (4 - |base64| % 4) % 4
    {
      PadOnce(base64);
      base64 := base64 + "=";
    }
    assert Padded(base64) == base64;
    r := Atob(base64);
    forall bytes | b64 == B64Encode(bytes)
      ensures r == Some(bytes)
    {
      EncodingRoundTrip(bytes);
    }
  }
}
