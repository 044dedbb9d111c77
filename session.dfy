/**
 * The client-side session marker: an email address kept in the cookie
 * `session_email`, read back from `document.cookie`, and the server
 * "who am I" check.
 *
 * `document.cookie` is the browser's cookie header: the cookie-pairs
 * `name=value` joined by "; " (section 5.4 of RFC 6265). URI encoding and
 * decoding are functions passed in; a decoder returns None where
 * `decodeURIComponent` throws.
 */
module Session {
  import opened JsValues

  const CookieName := "session_email"

  // ---------------------------------------------------------------------------
  // Escaping the name for the regular expression
  // ---------------------------------------------------------------------------

  /** The characters the escape prefixes with a backslash. */
  predicate IsRegexMeta(c: char)
  {
    c in ".*+?^${}()|[]\\"
  }

  function EscapeRegex(name: string): (r: string)
    ensures |r| >= |name|
  {
    if name == [] then []
    else (if IsRegexMeta(name[0]) then ['\\', name[0]] else [name[0]]) + EscapeRegex(name[1..])
  }

  /** The text a regular expression matches when it is made only of plain
      characters and backslash-escaped metacharacters; None when it uses any
      other construct (an unescaped metacharacter, or an escape such as \d). */
  function LiteralText(p: string): Option<string>
  {
    if p == [] then Some([])
    else if p[0] == '\\' then
      if |p| >= 2 && IsRegexMeta(p[1]) then
        match LiteralText(p[2..])
        case Some(t) => Some([p[1]] + t)
        case None => None
      else None
    else if IsRegexMeta(p[0]) then None
    else
      match LiteralText(p[1..])
      case Some(t) => Some([p[0]] + t)
      case None => None
  }

  /** The escaped name is a pattern that matches the name and nothing else. */
  lemma {:induction false} EscapedNameIsLiteral(name: string)
    ensures LiteralText(EscapeRegex(name)) == Some(name)
  {
    if name != [] {
      EscapedNameIsLiteral(name[1..]);
      var rest := EscapeRegex(name[1..]);
      if IsRegexMeta(name[0]) {
        assert EscapeRegex(name) == ['\\', name[0]] + rest;
        assert (['\\', name[0]] + rest)[2..] == rest;
      } else {
        assert EscapeRegex(name) == [name[0]] + rest;
        assert ([name[0]] + rest)[1..] == rest;
      }
      assert [name[0]] + name[1..] == name;
    }
  }

  // ---------------------------------------------------------------------------
  // getCookie: the leftmost match of (?:^|; )name=([^;]*)
  // ---------------------------------------------------------------------------

  /** A pair may start at the beginning of the text or right after "; ". */
  predicate PairStartsAt(cookie: string, q: nat)
  {
    q == 0 || (2 <= q <= |cookie| && cookie[q - 2] == ';' && cookie[q - 1] == ' ')
  }

  /** `name=` is written at a pair start `q`. */
  predicate NameAt(cookie: string, name: string, q: nat)
  {
    PairStartsAt(cookie, q) && q + |name| + 1 <= |cookie|
    && cookie[q..q + |name|] == name && cookie[q + |name|] == '='
  }

  /** The first position at or after `q` where `name=` starts a pair. */
  function FindName(cookie: string, name: string, q: nat): (r: Option<nat>)
    ensures r.Some? ==> q <= r.value && NameAt(cookie, name, r.value)
    ensures r.Some? ==> forall k :: q <= k < r.value ==> !NameAt(cookie, name, k)
    ensures r.None? ==> forall k :: q <= k ==> !NameAt(cookie, name, k)
    decreases |cookie| - q
  {
    if q + |name| + 1 > |cookie| then None
    else if NameAt(cookie, name, q) then Some(q)
    else FindName(cookie, name, q + 1)
  }

  /** `[^;]*`: the text up to the next ';' or the end. */
  function UpToSemicolon(s: string): string
  {
    if s == [] || s[0] == ';' then [] else [s[0]] + UpToSemicolon(s[1..])
  }

  /** `[^;]*` matches the longest prefix without ';'. */
  lemma {:induction false} UpToSemicolonIsPrefix(s: string)
    ensures var r := UpToSemicolon(s);
            |r| <= |s| && r == s[..|r|] && ';' !in r && (|r| == |s| || s[|r|] == ';')
  {
    if s != [] && s[0] != ';' {
      UpToSemicolonIsPrefix(s[1..]);
      var r' := UpToSemicolon(s[1..]);
      assert UpToSemicolon(s) == [s[0]] + r';
      assert s[..|r'| + 1] == [s[0]] + s[1..][..|r'|];
    }
  }

  /** No pair of the header is called `name`. */
  ghost predicate NoPairNamed(cookie: string, name: string)
  {
    forall k: nat :: !NameAt(cookie, name, k)
  }

  datatype CookieRead = NoCookie | CookieValue(value: string) | DecodeFailed

  /** `getCookie(name)` on the header `cookie`. */
  function GetCookie(cookie: string, name: string, decode: string -> Option<string>): (r: CookieRead)
    // null exactly when `name=` starts no pair, at the beginning or after "; "
    ensures r.NoCookie? <==> NoPairNamed(cookie, name)
  {
    match FindName(cookie, name, 0)
    case None => NoCookie
    case Some(q) =>
      match decode(UpToSemicolon(cookie[q + |name| + 1..]))
      case Some(v) => CookieValue(v)
      case None => DecodeFailed
  }

  /** The search finds the leftmost pair start holding `name=`. */
  lemma FindNameAt(cookie: string, name: string, q: nat)
    requires NameAt(cookie, name, q) && forall k: nat :: k < q ==> !NameAt(cookie, name, k)
    ensures FindName(cookie, name, 0) == Some(q)
  {
    var f := FindName(cookie, name, 0);
    assert f.Some?;
    assert !(f.value < q);
    assert !(q < f.value);
  }

  /** When `name=` starts the pair at `q` and no earlier one, getCookie is
      the decoded text after it, up to the next ';'. */
  lemma GetCookieFound(cookie: string, name: string, decode: string -> Option<string>, q: nat)
    requires NameAt(cookie, name, q) && forall k: nat :: k < q ==> !NameAt(cookie, name, k)
    ensures var text := UpToSemicolon(cookie[q + |name| + 1..]);
            (decode(text).Some? ==> GetCookie(cookie, name, decode) == CookieValue(decode(text).value))
            && (decode(text).None? ==> GetCookie(cookie, name, decode) == DecodeFailed)
  {
    FindNameAt(cookie, name, q);
  }

  /** `getSessionEmail()` */
  function GetSessionEmail(cookie: string, decode: string -> Option<string>): (r: CookieRead)
    ensures r.NoCookie? <==> NoPairNamed(cookie, CookieName)
  {
    GetCookie(cookie, CookieName, decode)
  }

  /** `isAuthenticated()`: `!!getSessionEmail()`, so an empty value counts as
      signed out; it throws when the stored value does not decode. */
  function IsAuthenticated(cookie: string, decode: string -> Option<string>): (r: Outcome<bool>)
    ensures r == Returned(true) <==>
              GetSessionEmail(cookie, decode).CookieValue? && GetSessionEmail(cookie, decode).value != ""
    ensures r == Threw <==> GetSessionEmail(cookie, decode) == DecodeFailed
  {
    match GetSessionEmail(cookie, decode)
    case NoCookie => Returned(false)
    case CookieValue(v) => Returned(v != "")
    case DecodeFailed => Threw
  }

  // ---------------------------------------------------------------------------
  // The cookie header
  // ---------------------------------------------------------------------------

  datatype Pair = Pair(name: string, value: string)

  function PairText(p: Pair): string
  {
    p.name + "=" + p.value
  }

  /** The header the browser exposes: the pairs joined by "; ". */
  function Header(pairs: seq<Pair>): string
  {
    if pairs == [] then ""
    else if |pairs| == 1 then PairText(pairs[0])
    else PairText(pairs[0]) + "; " + Header(pairs[1..])
  }

  /** Cookie names hold no '=' or ';', values no ';'. */
  predicate WellFormed(p: Pair)
  {
    '=' !in p.name && ';' !in p.name && ';' !in p.value
  }

  /** Every pair of the list is well formed. */
  predicate AllWellFormed(pairs: seq<Pair>)
  {
    pairs == [] || (WellFormed(pairs[0]) && AllWellFormed(pairs[1..]))
  }

  lemma {:induction false} AllWellFormedMeaning(pairs: seq<Pair>)
    ensures AllWellFormed(pairs) <==> forall j :: 0 <= j < |pairs| ==> WellFormed(pairs[j])
  {
    if pairs != [] {
      AllWellFormedMeaning(pairs[1..]);
      assert forall j :: 1 <= j < |pairs| ==> pairs[j] == pairs[1..][j - 1];
    }
  }

  /** Where pair `i` starts in the header. */
  function Offset(pairs: seq<Pair>, i: nat): nat
    requires i <= |pairs|
  {
    if i == 0 then 0 else |PairText(pairs[0])| + 2 + Offset(pairs[1..], i - 1)
  }

  /** The index of the first pair called `name`. */
  function FirstNamed(pairs: seq<Pair>, name: string): (r: Option<nat>)
    ensures r.Some? ==> r.value < |pairs| && pairs[r.value].name == name
    ensures r.Some? ==> forall j :: 0 <= j < r.value ==> pairs[j].name != name
    ensures r.None? ==> forall j :: 0 <= j < |pairs| ==> pairs[j].name != name
  {
    if pairs == [] then None
    else if pairs[0].name == name then Some(0)
    else match FirstNamed(pairs[1..], name)
         case None => None
         case Some(j) => Some(j + 1)
  }

  /** At the start of one pair's text, `name=` is written exactly when the
      pair is called `name`. */
  lemma NameAtFront(t: string, p: Pair, name: string)
    requires WellFormed(p) && '=' !in name
    requires |t| >= |PairText(p)| && t[..|PairText(p)|] == PairText(p)
    ensures NameAt(t, name, 0) <==> p.name == name
  {
    var n := |p.name|;
    assert t[n] == '=' by { assert PairText(p)[n] == '='; }
    assert t[..n] == p.name by { assert PairText(p)[..n] == p.name; }
    if |name| < n {
      // the character after a shorter name is still part of the pair's name
      assert t[|name|] == p.name[|name|];
      assert p.name[|name|] in p.name;
    } else if |name| > n {
      // a longer name would need '=' inside itself
      assert name[n] in name;
    }
  }

  /** Inside the text of a pair no other pair starts. */
  lemma NoStartInside(t: string, p: Pair, name: string, q: nat)
    requires WellFormed(p)
    requires |t| >= |PairText(p)| && t[..|PairText(p)|] == PairText(p)
    requires 1 <= q <= |PairText(p)| + 1
    ensures !NameAt(t, name, q)
  {
    if q >= 2 {
      var k := q - 2;
      assert t[k] == PairText(p)[k];
      if k < |p.name| {
        assert PairText(p)[k] == p.name[k];
        assert p.name[k] in p.name;
      } else if k > |p.name| {
        assert PairText(p)[k] == p.value[k - |p.name| - 1];
        assert p.value[k - |p.name| - 1] in p.value;
      }
      assert t[k] != ';';
    }
  }

  /** Past the first pair and its separator, matches are those of the rest. */
  lemma NameAtShift(t: string, s: string, name: string, k: nat)
    requires |t| >= 1
    ensures NameAt(t + "; " + s, name, |t| + 2 + k) <==> NameAt(s, name, k)
  {
    var h := t + "; " + s;
    var q := |t| + 2 + k;
    assert h[|t| + 2..] == s;
    if k == 1 {
      assert h[q - 2] == ' ';
    }
    if 2 <= k <= |s| {
      assert h[q - 2] == s[k - 2] && h[q - 1] == s[k - 1];
    }
    if k + |name| + 1 <= |s| {
      assert h[q..q + |name|] == h[|t| + 2..][k..k + |name|];
      assert h[q + |name|] == s[k + |name|];
    }
  }

  /** The text after `name=` at pair `i`'s start is the pair's value. */
  lemma {:induction false} ValueAfterName(pairs: seq<Pair>, i: nat)
    requires i < |pairs| && AllWellFormed(pairs)
    ensures Offset(pairs, i) + |pairs[i].name| + 1 <= |Header(pairs)|
    ensures UpToSemicolon(Header(pairs)[Offset(pairs, i) + |pairs[i].name| + 1..]) == pairs[i].value
  {
    assert WellFormed(pairs[0]) && AllWellFormed(pairs[1..]);
    if i == 0 {
      ValueAfterFirst(pairs);
    } else {
      ValueAfterName(pairs[1..], i - 1);
      ValueAfterLater(pairs, i);
    }
  }

  /** Restating the text after `name=` for an equal name. */
  lemma SameName(h: string, q: nat, n: string, name: string, v: string)
    requires n == name && q + |n| + 1 <= |h| && UpToSemicolon(h[q + |n| + 1..]) == v
    ensures q + |name| + 1 <= |h| && UpToSemicolon(h[q + |name| + 1..]) == v
  {
  }

  /** The value of the first pair follows its `name=`. */
  lemma ValueAfterFirst(pairs: seq<Pair>)
    requires |pairs| >= 1 && ';' !in pairs[0].value
    ensures |pairs[0].name| + 1 <= |Header(pairs)|
    ensures UpToSemicolon(Header(pairs)[|pairs[0].name| + 1..]) == pairs[0].value
  {
    var p := pairs[0];
    var h := Header(pairs);
    var tail := if |pairs| == 1 then [] else "; " + Header(pairs[1..]);
    assert h == PairText(p) + tail;
    assert h[|p.name| + 1..] == p.value + tail;
    ValueStopsAtSemicolon(p.value, tail);
  }

  /** Past the first pair, positions in the header are those in the rest
      shifted by the first pair's text and the separator. */
  lemma ValueAfterLater(pairs: seq<Pair>, i: nat)
    requires 1 <= i < |pairs|
    requires var rest := pairs[1..];
             Offset(rest, i - 1) + |rest[i - 1].name| + 1 <= |Header(rest)|
             && UpToSemicolon(Header(rest)[Offset(rest, i - 1) + |rest[i - 1].name| + 1..]) == rest[i - 1].value
    ensures Offset(pairs, i) + |pairs[i].name| + 1 <= |Header(pairs)|
    ensures UpToSemicolon(Header(pairs)[Offset(pairs, i) + |pairs[i].name| + 1..]) == pairs[i].value
  {
    var rest := pairs[1..];
    var t := PairText(pairs[0]);
    var s := Header(rest);
    var h := Header(pairs);
    assert rest[i - 1] == pairs[i];
    assert h == t + "; " + s;
    var at' := Offset(rest, i - 1) + |pairs[i].name| + 1;
    assert Offset(pairs, i) + |pairs[i].name| + 1 == |t| + 2 + at';
    assert h[|t| + 2 + at'..] == s[at'..];
  }

  lemma {:induction false} ValueStopsAtSemicolon(v: string, rest: string)
    requires ';' !in v
    requires rest == [] || rest[0] == ';'
    ensures UpToSemicolon(v + rest) == v
  {
    if v != [] {
      assert v[0] in v;
      assert (v + rest)[1..] == v[1..] + rest;
      ValueStopsAtSemicolon(v[1..], rest);
    } else {
      assert v + rest == rest;
    }
  }

  /** A pair not called `name` holds no match, up to where the next pair starts. */
  lemma NoMatchInPair(h: string, p: Pair, name: string)
    requires WellFormed(p) && '=' !in name && p.name != name
    requires |h| >= |PairText(p)| && h[..|PairText(p)|] == PairText(p)
    ensures forall q: nat :: q <= |PairText(p)| + 1 ==> !NameAt(h, name, q)
  {
    NameAtFront(h, p, name);
    forall q: nat | 1 <= q <= |PairText(p)| + 1 ensures !NameAt(h, name, q) {
      NoStartInside(h, p, name, q);
    }
  }

  /** Matches in `PairText(p) + "; " + s` are those of `s`, shifted. */
  lemma ConsMatches(p: Pair, s: string, name: string)
    requires WellFormed(p) && '=' !in name && p.name != name
    ensures var t := PairText(p);
            forall q: nat :: NameAt(t + "; " + s, name, q) <==> q >= |t| + 2 && NameAt(s, name, q - (|t| + 2))
  {
    var t := PairText(p);
    var h := t + "; " + s;
    assert h[..|t|] == t;
    NoMatchInPair(h, p, name);
    forall k: nat ensures NameAt(h, name, |t| + 2 + k) <==> NameAt(s, name, k) {
      NameAtShift(t, s, name, k);
    }
    forall q: nat | q >= |t| + 2 ensures NameAt(h, name, q) <==> NameAt(s, name, q - (|t| + 2)) {
      assert q == |t| + 2 + (q - (|t| + 2));
    }
  }

  /** Where `name=` stands in a header of well-formed pairs: at the start of
      the first pair called `name`, and at no earlier position. */
  lemma {:induction false} HeaderMatches(pairs: seq<Pair>, name: string)
    requires AllWellFormed(pairs)
    requires '=' !in name
    ensures FirstNamed(pairs, name).None? ==> forall q: nat :: !NameAt(Header(pairs), name, q)
    ensures FirstNamed(pairs, name).Some? ==>
              var q := Offset(pairs, FirstNamed(pairs, name).value);
              NameAt(Header(pairs), name, q) && forall k: nat :: k < q ==> !NameAt(Header(pairs), name, k)
  {
    if pairs == [] {
      return;
    }
    var p := pairs[0];
    var t := PairText(p);
    var h := Header(pairs);
    assert WellFormed(p);
    if |pairs| == 1 {
      assert h == t && h[..|t|] == t;
      NameAtFront(h, p, name);
      if p.name != name {
        NoMatchInPair(h, p, name);
      }
      return;
    }
    var rest := pairs[1..];
    var s := Header(rest);
    assert h == t + "; " + s;
    if p.name == name {
      assert h[..|t|] == t;
      NameAtFront(h, p, name);
      return;
    }
    HeaderMatches(rest, name);
    ConsMatches(p, s, name);
    var f := FirstNamed(rest, name);
    if f.Some? {
      assert FirstNamed(pairs, name) == Some(f.value + 1);
      var q := Offset(pairs, f.value + 1);
      assert q == |t| + 2 + Offset(rest, f.value);
    }
  }

  /** Reading a named cookie straight from the list of pairs: the first pair
      with that name, decoded. */
  function ReadPairs(pairs: seq<Pair>, name: string, decode: string -> Option<string>): CookieRead
  {
    match FirstNamed(pairs, name)
    case None => NoCookie
    case Some(i) =>
      match decode(pairs[i].value)
      case Some(v) => CookieValue(v)
      case None => DecodeFailed
  }

  /** getCookie on a well-formed header reads the first pair with that name,
      decoded, and null when there is none; a name that merely ends a longer
      name does not match. */
  lemma HeaderLookup(pairs: seq<Pair>, name: string, decode: string -> Option<string>)
    requires AllWellFormed(pairs)
    requires '=' !in name
    ensures GetCookie(Header(pairs), name, decode) == ReadPairs(pairs, name, decode)
  {
    var h := Header(pairs);
    var f := FirstNamed(pairs, name);
    if f.Some? {
      var i := f.value;
      var q := Offset(pairs, i);
      ValueAfterName(pairs, i);
      SameName(h, q, pairs[i].name, name, pairs[i].value);
      HeaderMatches(pairs, name);
      GetCookieFound(h, name, decode, q);
    } else {
      assert FindName(h, name, 0).None? by {
        HeaderMatches(pairs, name);
      }
    }
  }

  /** `xsession_email=a` is no session cookie. */
  lemma LongerNameDoesNotMatch(decode: string -> Option<string>)
    ensures GetSessionEmail("xsession_email=a", decode) == NoCookie
  {
    var a := Pair("xsession_email", "a");
    assert WellFormed(a);
    assert AllWellFormed([a]) by { assert [a][1..] == []; }
    assert PairText(a) == "xsession_email=a";
    assert FirstNamed([a], CookieName) == None;
    HeaderLookup([a], CookieName, decode);
  }

  /** With two session pairs, the leftmost one is read. */
  lemma LeftmostWins(decode: string -> Option<string>)
    requires decode("first") == Some("first")
    ensures GetSessionEmail("session_email=first" + "; " + "session_email=second", decode) == CookieValue("first")
  {
    var a, b := Pair(CookieName, "first"), Pair(CookieName, "second");
    assert WellFormed(a) && WellFormed(b);
    TwoPairs(a, b);
    assert PairText(a) == "session_email=first";
    assert PairText(b) == "session_email=second";
    assert ReadPairs([a, b], CookieName, decode) == CookieValue("first");
    HeaderLookup([a, b], CookieName, decode);
  }

  lemma TwoPairs(a: Pair, b: Pair)
    requires WellFormed(a) && WellFormed(b)
    ensures AllWellFormed([a, b])
    ensures Header([a, b]) == PairText(a) + "; " + PairText(b)
  {
    assert [a, b][1..] == [b];
    assert [b][1..] == [];
  }

  // ---------------------------------------------------------------------------
  // Writing the cookie
  // ---------------------------------------------------------------------------

  /** A set-cookie string with the attributes the module always writes. */
  function CookieString(name: string, encoded: string, expires: string): string
  {
    name + "=" + encoded + ";expires=" + expires + ";path=/;SameSite=Lax"
  }

  /** The string `setCookie` assigns to `document.cookie`. */
  function SetCookieString(name: string, value: string, encode: string -> string, expires: string): (r: string)
    // the browser stores the pair `name=encode(value)`
    ensures WellFormed(Pair(name, encode(value))) ==> PairOf(r) == Some(Pair(name, encode(value)))
  {
    var r := CookieString(name, encode(value), expires);
    assert WellFormed(Pair(name, encode(value))) ==> PairOf(r) == Some(Pair(name, encode(value))) by {
      if WellFormed(Pair(name, encode(value))) {
        CookiePair(name, encode(value), expires);
      }
    }
    r
  }

  /** The string `clearSession` assigns: an empty value that expired in 1970. */
  function ClearSessionString(): (r: string)
    // the browser stores `session_email=` with an empty value
    ensures PairOf(r) == Some(Pair(CookieName, ""))
  {
    assert WellFormed(Pair(CookieName, ""));
    CookiePair(CookieName, "", "Thu, 01 Jan 1970 00:00:00 GMT");
    CookieString(CookieName, "", "Thu, 01 Jan 1970 00:00:00 GMT")
  }

  /** The cookie-pair a browser takes from a set-cookie string: the text
      before the first ';' (section 5.2 of RFC 6265), split at its first '='. */
  function PairOf(setString: string): Option<Pair>
  {
    var nv := UpToSemicolon(setString);
    if '=' !in nv then None
    else
      var i := IndexOf(nv, '=');
      Some(Pair(nv[..i], nv[i + 1..]))
  }

  function IndexOf(s: string, c: char): (i: nat)
    requires c in s
    ensures i < |s| && s[i] == c && c !in s[..i]
  {
    if s[0] == c then 0 else 1 + IndexOf(s[1..], c)
  }

  /** A set-cookie string of a well-formed pair yields that pair. */
  lemma CookiePair(name: string, encoded: string, expires: string)
    requires WellFormed(Pair(name, encoded))
    ensures PairOf(CookieString(name, encoded, expires)) == Some(Pair(name, encoded))
  {
    var nv := name + "=" + encoded;
    var tail := ";expires=" + expires + ";path=/;SameSite=Lax";
    assert CookieString(name, encoded, expires) == nv + tail;
    assert ';' !in nv by {
      forall k | 0 <= k < |nv| ensures nv[k] != ';' {
        if k < |name| { assert nv[k] == name[k]; assert name[k] in name; }
        else if k > |name| { assert nv[k] == encoded[k - |name| - 1]; assert encoded[k - |name| - 1] in encoded; }
      }
    }
    ValueStopsAtSemicolon(nv, tail);
    assert nv[|name|] == '=';
    var i := IndexOf(nv, '=');
    assert i == |name| by {
      assert forall k :: 0 <= k < |name| ==> nv[k] == name[k] && name[k] in name;
      assert forall j :: |name| < j <= |nv| ==> nv[..j][|name|] == '=';
    }
    assert nv[..i] == name;
    assert nv[i + 1..] == encoded;
  }

  /** Round trip: a session stored by setSessionEmail reads back as the same
      email, as long as no earlier pair has the session cookie's name, the
      encoder writes no ';' and the decoder undoes the encoder. */
  lemma SessionRoundTrip(before: seq<Pair>, after: seq<Pair>, email: string,
                         encode: string -> string, decode: string -> Option<string>, expires: string)
    requires AllWellFormed(before) && AllWellFormed(after)
    requires forall j :: 0 <= j < |before| ==> before[j].name != CookieName
    requires ';' !in encode(email) && decode(encode(email)) == Some(email)
    ensures PairOf(SetCookieString(CookieName, email, encode, expires)).Some?
    ensures var pairs := before + [PairOf(SetCookieString(CookieName, email, encode, expires)).value] + after;
            GetSessionEmail(Header(pairs), decode) == CookieValue(email)
            && IsAuthenticated(Header(pairs), decode) == Returned(email != "")
  {
    assert WellFormed(Pair(CookieName, encode(email)));
    StoredReadsBack(before, after, CookieName, encode(email), decode, email);
  }

  /** A pair stored after pairs of other names reads back decoded. */
  lemma StoredReadsBack(before: seq<Pair>, after: seq<Pair>, name: string, encoded: string,
                        decode: string -> Option<string>, v: string)
    requires AllWellFormed(before) && AllWellFormed(after)
    requires forall j :: 0 <= j < |before| ==> before[j].name != name
    requires WellFormed(Pair(name, encoded)) && decode(encoded) == Some(v)
    ensures GetCookie(Header(before + [Pair(name, encoded)] + after), name, decode) == CookieValue(v)
  {
    var p := Pair(name, encoded);
    var pairs := before + [p] + after;
    assert AllWellFormed([p]) by { assert [p][1..] == []; }
    AllWellFormedConcat(before, [p]);
    AllWellFormedConcat(before + [p], after);
    assert pairs[|before|] == p;
    assert forall j :: 0 <= j < |before| ==> pairs[j] == before[j];
    FirstNamedAt(pairs, name, |before|);
    assert ReadPairs(pairs, name, decode) == CookieValue(v);
    HeaderLookup(pairs, name, decode);
  }

  lemma {:induction false} AllWellFormedConcat(a: seq<Pair>, b: seq<Pair>)
    ensures AllWellFormed(a + b) <==> AllWellFormed(a) && AllWellFormed(b)
  {
    if a == [] {
      assert a + b == b;
    } else {
      assert (a + b)[0] == a[0];
      assert (a + b)[1..] == a[1..] + b;
      AllWellFormedConcat(a[1..], b);
    }
  }

  lemma FirstNamedAt(pairs: seq<Pair>, name: string, i: nat)
    requires i < |pairs| && pairs[i].name == name
    requires forall j :: 0 <= j < i ==> pairs[j].name != name
    ensures FirstNamed(pairs, name) == Some(i)
  {
    var f := FirstNamed(pairs, name);
    assert f.Some? && f.value <= i;
  }

  /** A cleared session reads as signed out, whether the browser kept the empty
      pair or dropped the expired cookie. */
  lemma ClearedSessionIsSignedOut(pairs: seq<Pair>, decode: string -> Option<string>)
    requires AllWellFormed(pairs)
    requires decode("") == Some("")
    requires FirstNamed(pairs, CookieName).Some? ==> pairs[FirstNamed(pairs, CookieName).value].value == ""
    ensures IsAuthenticated(Header(pairs), decode) == Returned(false)
  {
    ClearedReadsEmpty(pairs, CookieName, decode);
    SignedOutWhen(Header(pairs), decode);
  }

  /** A header whose first pair called `name` is empty reads as empty or absent. */
  lemma ClearedReadsEmpty(pairs: seq<Pair>, name: string, decode: string -> Option<string>)
    requires AllWellFormed(pairs) && '=' !in name
    requires decode("") == Some("")
    requires FirstNamed(pairs, name).Some? ==> pairs[FirstNamed(pairs, name).value].value == ""
    ensures GetCookie(Header(pairs), name, decode) in {NoCookie, CookieValue("")}
  {
    HeaderLookup(pairs, name, decode);
  }

  /** No session cookie, or an empty one, reads as signed out. */
  lemma SignedOutWhen(cookie: string, decode: string -> Option<string>)
    requires GetSessionEmail(cookie, decode) == NoCookie || GetSessionEmail(cookie, decode) == CookieValue("")
    ensures IsAuthenticated(cookie, decode) == Returned(false)
  {
  }

  // ---------------------------------------------------------------------------
  // validateWithServer
  // ---------------------------------------------------------------------------

  datatype Json =
    | JNull
    | JBool(b: bool)
    | JNumber(x: real)
    | JString(s: string)
    | JArray(elems: seq<Json>)
    | JObject(fields: seq<(string, Json)>)

  /** JavaScript truthiness of a parsed JSON value. */
  predicate Truthy(j: Json)
  {
    match j
    case JNull => false
    case JBool(b) => b
    case JNumber(x) => x != 0.0
    case JString(s) => s != ""
    case JArray(_) => true
    case JObject(_) => true
  }

  /** What the `fetch` of the "who am I" endpoint produced: a transport
      failure, or a response whose body is JSON (or None when it is not). */
  datatype MeResponse = NetworkError | Response(ok: bool, body: Option<Json>)

  /** `validateWithServer()`: null on a failed request, a non-OK status, a
      body that is not JSON or a falsy body; the body itself otherwise. It
      never throws. */
  function ValidateWithServer(r: MeResponse): (data: Option<Json>)
    ensures data.Some? <==> r.Response? && r.ok && r.body.Some? && Truthy(r.body.value)
    ensures data.Some? ==> data == r.body && Truthy(data.value)
  {
    match r
    case NetworkError => None
    case Response(ok, body) =>
      if !ok then None
      else match body
           case None => None
           case Some(j) => if Truthy(j) then Some(j) else None
  }
}
