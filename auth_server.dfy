/** The Java login server (SimpleAuthServer.java): form-body parsing,
    cookie-header lookup, `Set-Cookie` formatting, JSON escaping, the user
    repository behind sign-up and login, and the decisions the sign-up,
    login and auth-check endpoints take. The HTTP exchange, JDBC, BCrypt,
    JWT signing and `URLDecoder` are outside the model: the request is
    given as values, and URL decoding, hashing, password checking and token
    verification are function parameters. */
module AuthServer {
  import opened Wrappers
  import opened Text
  import opened Sorting

  const SessionCookieName: string := "SESSION_ID"
  const JwtCookieName: string := "ACCESS_TOKEN"
  const AppAuthCookieName: string := "APP_AUTH"

  // ---------------------------------------------------------------------------
  // Form bodies
  // ---------------------------------------------------------------------------

  /** The key of a `key=value` piece: everything before the first `=`
      (`pair.split("=", 2)[0]`). */
  function KeyPart(piece: string): string {
    match IndexOf(piece, '=')
    case None => piece
    case Some(i) => piece[..i]
  }

  /** The value of a piece: everything after the first `=`, if there is one. */
  function ValuePart(piece: string): Option<string> {
    match IndexOf(piece, '=')
    case None => None
    case Some(i) => Some(piece[i + 1..])
  }

  /** Splitting a piece at its first `=` loses nothing: the key has no `=`,
      and the piece is the key, or the key, `=` and the value. */
  lemma SplitAtFirstEquals(piece: string)
    ensures '=' !in KeyPart(piece)
    ensures ValuePart(piece).None? ==> KeyPart(piece) == piece
    ensures ValuePart(piece).Some? ==> piece == KeyPart(piece) + "=" + ValuePart(piece).value
  {
    match IndexOf(piece, '=')
    case None =>
    case Some(i) =>
      assert piece == piece[..i] + [piece[i]] + piece[i + 1..];
  }

  /** The decoded value a piece contributes ("" when it has no `=`). */
  function DecodedValue(piece: string, decode: string -> string): string {
    match ValuePart(piece)
    case None => ""
    case Some(v) => decode(v)
  }

  /** The map the form pieces build, in order: empty pieces are skipped and
      a later piece overrides an earlier one with the same decoded key. */
  function FormMap(pieces: seq<string>, decode: string -> string): map<string, string> {
    if pieces == [] then map[]
    else
      var m := FormMap(pieces[..|pieces| - 1], decode);
      var p := pieces[|pieces| - 1];
      if p == "" then m else m[decode(KeyPart(p)) := DecodedValue(p, decode)]
  }

  /** Whether `piece` is a non-empty piece whose decoded key is `k`. */
  predicate SetsKey(piece: string, decode: string -> string, k: string) {
    piece != "" && decode(KeyPart(piece)) == k
  }

  /** A key no piece sets is not in the form map. */
  lemma {:induction false} FormMapUnsetKey(pieces: seq<string>, decode: string -> string, k: string)
    requires forall i :: 0 <= i < |pieces| ==> !SetsKey(pieces[i], decode, k)
    ensures k !in FormMap(pieces, decode)
  {
    if pieces != [] {
      var init := pieces[..|pieces| - 1];
      assert forall i :: 0 <= i < |init| ==> init[i] == pieces[i];
      FormMapUnsetKey(init, decode, k);
    }
  }

  /** A key's value comes from the last piece that sets it. */
  lemma {:induction false} FormMapLastWins(pieces: seq<string>, decode: string -> string, k: string, i: nat)
    requires i < |pieces| && SetsKey(pieces[i], decode, k)
    requires forall j :: i < j < |pieces| ==> !SetsKey(pieces[j], decode, k)
    ensures k in FormMap(pieces, decode) && FormMap(pieces, decode)[k] == DecodedValue(pieces[i], decode)
  {
    var n := |pieces| - 1;
    if i < n {
      var init := pieces[..n];
      assert init[i] == pieces[i];
      assert forall j :: i < j < |init| ==> init[j] == pieces[j];
      FormMapLastWins(init, decode, k, i);
    }
  }

  /** A key is in the form map exactly when some piece sets it. */
  lemma FormMapKeys(pieces: seq<string>, decode: string -> string, k: string)
    ensures k in FormMap(pieces, decode) <==> exists i :: 0 <= i < |pieces| && SetsKey(pieces[i], decode, k)
  {
    if exists i :: 0 <= i < |pieces| && SetsKey(pieces[i], decode, k) {
      var i :| 0 <= i < |pieces| && SetsKey(pieces[i], decode, k);
      LastSetter(pieces, decode, k, i);
    } else {
      FormMapUnsetKey(pieces, decode, k);
    }
  }

  /** From any piece that sets `k`, the last one that does. */
  lemma {:induction false} LastSetter(pieces: seq<string>, decode: string -> string, k: string, i: nat)
    requires i < |pieces| && SetsKey(pieces[i], decode, k)
    ensures k in FormMap(pieces, decode)
    decreases |pieces| - i
  {
    if j :| i < j < |pieces| && SetsKey(pieces[j], decode, k) {
      LastSetter(pieces, decode, k, j);
    } else {
      FormMapLastWins(pieces, decode, k, i);
    }
  }

  /** `parseFormBody`: the request body split on `&`, each non-empty piece
      split at its first `=`, key and value URL-decoded with `decode`. */
  method ParseFormBody(body: string, decode: string -> string) returns (params: map<string, string>)
    ensures params == FormMap(SplitOn(body, '&'), decode)
  {
    var pieces := SplitOn(body, '&');
    params := map[];
    for i := 0 to |pieces|
      invariant params == FormMap(pieces[..i], decode)
    {
      var pair := pieces[i];
      assert pieces[..i + 1][..i] == pieces[..i];
      if pair != "" {
        var eq := IndexOf(pair, '=');
        var key := decode(if eq.Some? then pair[..eq.value] else pair);
        var value := if eq.Some? then decode(pair[eq.value + 1..]) else "";
        params := params[key := value];
      }
    }
    assert pieces[..|pieces|] == pieces;
  }

  /** `params.get(key)`: `None` stands for Java's `null`. */
  function Param(params: map<string, string>, key: string): (r: Option<string>)
    ensures r.Some? <==> key in params
  {
    if key in params then Some(params[key]) else None
  }

  // ---------------------------------------------------------------------------
  // isBlank / trimToNull
  // ---------------------------------------------------------------------------

  /** `isBlank`: null, or nothing left after `String.trim()`. */
  predicate IsBlank(s: Option<string>) {
    s.None? || Strip(JavaTrim, s.value) == ""
  }

  /** A string is blank exactly when it is null or all characters up to U+0020. */
  lemma BlankIsAllSpace(s: Option<string>)
    ensures IsBlank(s) <==> s.None? || AllSpace(JavaTrim, s.value)
  {
    if s.Some? {
      StripEmptyIff(JavaTrim, s.value);
    }
  }

  /** `trimToNull`: null for a blank string, otherwise the trimmed string. */
  function TrimToNull(s: Option<string>): (r: Option<string>)
    ensures r.None? <==> IsBlank(s)
    ensures r.Some? ==> r.value != "" && Stripped(JavaTrim, r.value) && r.value == Strip(JavaTrim, s.value)
  {
    if s.None? then None
    else
      var t := Strip(JavaTrim, s.value);
      StripIsStripped(JavaTrim, s.value);
      if t == "" then None else Some(t)
  }

  /** Trimming to null twice is trimming once, and it keeps blankness. */
  lemma TrimToNullIdempotent(s: Option<string>)
    ensures TrimToNull(TrimToNull(s)) == TrimToNull(s)
    ensures IsBlank(TrimToNull(s)) <==> IsBlank(s)
  {
    if TrimToNull(s).Some? {
      StripStripped(JavaTrim, TrimToNull(s).value);
    }
  }

  // ---------------------------------------------------------------------------
  // Cookie headers
  // ---------------------------------------------------------------------------

  /** `header.split(";\\s*")`: the pieces between semicolons, each after the
      first without the white space that follows its semicolon. (Java drops
      trailing empty pieces; an empty piece never holds a pair, so keeping
      them changes no lookup.) */
  function Parts(header: string): seq<string> {
    var ps := SplitOn(header, ';');
    [ps[0]] + TrimEach(ps[1..])
  }

  function TrimEach(ps: seq<string>): (r: seq<string>)
    ensures |r| == |ps|
  {
    if ps == [] then [] else [TrimStart(RegexS, ps[0])] + TrimEach(ps[1..])
  }

  /** The value of `part` when it is a `name=value` pair for `name`. */
  function PairValue(part: string, name: string): (r: Option<string>)
    ensures r.Some? <==> ValuePart(part).Some? && KeyPart(part) == name
    ensures r.Some? ==> r == ValuePart(part)
  {
    match IndexOf(part, '=')
    case None => None
    case Some(i) => if part[..i] == name then Some(part[i + 1..]) else None
  }

  /** The value of the first pair for `name` among `parts`. */
  function FirstPair(parts: seq<string>, name: string): Option<string> {
    if parts == [] then None
    else if PairValue(parts[0], name).Some? then PairValue(parts[0], name)
    else FirstPair(parts[1..], name)
  }

  /** `FirstPair` finds nothing exactly when no part is a pair for `name`. */
  lemma {:induction false} FirstPairNone(parts: seq<string>, name: string)
    ensures FirstPair(parts, name).None? <==> forall k :: 0 <= k < |parts| ==> PairValue(parts[k], name).None?
  {
    if parts != [] {
      FirstPairNone(parts[1..], name);
      assert forall k :: 1 <= k < |parts| ==> parts[k] == parts[1..][k - 1];
    }
  }

  /** `FirstPair` is the value of the first part that is a pair for `name`. */
  lemma {:induction false} FirstPairIsFirstMatch(parts: seq<string>, name: string, k: nat)
    requires k < |parts| && PairValue(parts[k], name).Some?
    requires forall j :: 0 <= j < k ==> PairValue(parts[j], name).None?
    ensures FirstPair(parts, name) == PairValue(parts[k], name)
  {
    if k > 0 {
      assert forall j :: 0 <= j < k - 1 ==> parts[1..][j] == parts[j + 1];
      FirstPairIsFirstMatch(parts[1..], name, k - 1);
    }
  }

  /** The value of the first pair for `name`, across the Cookie headers in order. */
  function CookieLookup(headers: seq<string>, name: string): Option<string> {
    if headers == [] then None
    else if FirstPair(Parts(headers[0]), name).Some? then FirstPair(Parts(headers[0]), name)
    else CookieLookup(headers[1..], name)
  }

  /** `CookieLookup` finds nothing exactly when no header holds a pair for
      `name`. */
  lemma {:induction false} CookieLookupNone(headers: seq<string>, name: string)
    ensures CookieLookup(headers, name).None? <==>
              forall i :: 0 <= i < |headers| ==> FirstPair(Parts(headers[i]), name).None?
  {
    if headers != [] {
      CookieLookupNone(headers[1..], name);
      assert forall i :: 1 <= i < |headers| ==> headers[i] == headers[1..][i - 1];
    }
  }

  /** `CookieLookup` answers from the first header that holds a pair for
      `name`. */
  lemma {:induction false} CookieLookupIsFirstHeader(headers: seq<string>, name: string, i: nat)
    requires i < |headers| && FirstPair(Parts(headers[i]), name).Some?
    requires forall j :: 0 <= j < i ==> FirstPair(Parts(headers[j]), name).None?
    ensures CookieLookup(headers, name) == FirstPair(Parts(headers[i]), name)
  {
    if i > 0 {
      assert forall j :: 0 <= j < i - 1 ==> headers[1..][j] == headers[j + 1];
      CookieLookupIsFirstHeader(headers[1..], name, i - 1);
    }
  }

  /** `CookieLookup` under Java's null for a request with no Cookie header. */
  function CookieValue(cookies: Option<seq<string>>, name: string): Option<string> {
    if cookies.None? then None else CookieLookup(cookies.value, name)
  }

  /** `getCookieValue`: over the Cookie headers in order and the pieces of
      each, the value of the first `name=value` pair whose name is `name`;
      `None` without a Cookie header or without such a pair. */
  method GetCookieValue(cookies: Option<seq<string>>, name: string) returns (r: Option<string>)
    ensures r == CookieValue(cookies, name)
  {
    if cookies.None? {
      return None;
    }
    var headers := cookies.value;
    for i := 0 to |headers|
      invariant CookieLookup(headers, name) == CookieLookup(headers[i..], name)
    {
      var found := PairIn(Parts(headers[i]), name);
      if found.Some? {
        return found;
      }
      DropOfDrop(headers, i, 1);
    }
    return None;
  }

  /** The inner loop of `getCookieValue`, over the pieces of one header. */
  method PairIn(parts: seq<string>, name: string) returns (r: Option<string>)
    ensures r == FirstPair(parts, name)
  {
    for j := 0 to |parts|
      invariant FirstPair(parts, name) == FirstPair(parts[j..], name)
    {
      var eq := IndexOf(parts[j], '=');
      if eq.Some? && name == parts[j][..eq.value] {
        return Some(parts[j][eq.value + 1..]);
      }
      DropOfDrop(parts, j, 1);
    }
    return None;
  }

  // ---------------------------------------------------------------------------
  // Set-Cookie
  // ---------------------------------------------------------------------------

  /** The attributes `cookie()` writes after the pair, in order. */
  function Attributes(httpOnly: bool, maxAgeSeconds: int): (r: seq<string>)
    ensures 2 <= |r| <= 4 && r[0] == "Path=/" && r[|r| - 1] == "SameSite=Lax"
  {
    ["Path=/"] + (if maxAgeSeconds >= 0 then ["Max-Age=" + IntToString(maxAgeSeconds)] else [])
    + (if httpOnly then ["HttpOnly"] else []) + ["SameSite=Lax"]
  }

  /** `HttpOnly` is written exactly when asked for, and `Max-Age` exactly
      when the age is not negative. */
  lemma AttributeFlags(httpOnly: bool, maxAgeSeconds: int)
    ensures ("HttpOnly" in Attributes(httpOnly, maxAgeSeconds)) <==> httpOnly
    ensures ("Max-Age=" + IntToString(maxAgeSeconds) in Attributes(httpOnly, maxAgeSeconds)) <==> maxAgeSeconds >= 0
  {
    var r := Attributes(httpOnly, maxAgeSeconds);
    var age := "Max-Age=" + IntToString(maxAgeSeconds);
    assert age[0] == 'M' && age[3] == '-';
    assert "HttpOnly"[4] == 'O' && "Path=/"[0] == 'P' && "SameSite=Lax"[0] == 'S';
  }

  /** Each attribute preceded by `"; "`. */
  function AttributeText(attrs: seq<string>): string {
    if attrs == [] then "" else "; " + attrs[0] + AttributeText(attrs[1..])
  }

  /** The header value `cookie(name, value, httpOnly, maxAgeSeconds)` builds:
      `name=value` (a null value written as empty) and the attributes. */
  function SetCookieHeader(name: string, value: Option<string>, httpOnly: bool, maxAgeSeconds: int): string {
    name + "=" + value.GetOr("") + AttributeText(Attributes(httpOnly, maxAgeSeconds))
  }

  lemma AttributeTextSnoc(attrs: seq<string>, a: string)
    ensures AttributeText(attrs + [a]) == AttributeText(attrs) + "; " + a
  {
    if attrs != [] {
      assert (attrs + [a])[1..] == attrs[1..] + [a];
      AttributeTextSnoc(attrs[1..], a);
    }
  }

  /** Appending `"; "` and one more attribute to the text so far. */
  lemma AppendAttribute(sb: string, pair: string, written: seq<string>, a: string)
    requires sb == pair + AttributeText(written)
    ensures sb + "; " + a == pair + AttributeText(written + [a])
  {
    AttributeTextSnoc(written, a);
  }

  /** `cookie()`, appending to a buffer as the Java method does. */
  method Cookie(name: string, value: Option<string>, httpOnly: bool, maxAgeSeconds: int) returns (header: string)
    ensures header == SetCookieHeader(name, value, httpOnly, maxAgeSeconds)
  {
    var pair := name + "=" + (if value.None? then "" else value.value);
    ghost var written: seq<string> := [];
    var sb := pair;
    AppendAttribute(sb, pair, written, "Path=/");
    sb, written := sb + "; " + "Path=/", written + ["Path=/"];
    if maxAgeSeconds >= 0 {
      AppendAttribute(sb, pair, written, "Max-Age=" + IntToString(maxAgeSeconds));
      sb, written := sb + "; " + ("Max-Age=" + IntToString(maxAgeSeconds)), written + ["Max-Age=" + IntToString(maxAgeSeconds)];
    }
    if httpOnly {
      AppendAttribute(sb, pair, written, "HttpOnly");
      sb, written := sb + "; " + "HttpOnly", written + ["HttpOnly"];
    }
    AppendAttribute(sb, pair, written, "SameSite=Lax");
    sb, written := sb + "; " + "SameSite=Lax", written + ["SameSite=Lax"];
    assert written == Attributes(httpOnly, maxAgeSeconds);
    header := sb;
  }

  /** Each attribute behind one space, as it stands after its `;`. */
  function Spaced(attrs: seq<string>): (r: seq<string>)
    ensures |r| == |attrs|
  {
    if attrs == [] then [] else [" " + attrs[0]] + Spaced(attrs[1..])
  }

  /** Splitting `lead` followed by attribute text on `;` gives `lead` and
      each attribute behind one space. */
  lemma {:induction false} SplitAttributeText(lead: string, attrs: seq<string>)
    requires ';' !in lead
    requires forall k :: 0 <= k < |attrs| ==> ';' !in attrs[k]
    ensures SplitOn(lead + AttributeText(attrs), ';') == [lead] + Spaced(attrs)
    decreases |attrs|
  {
    if attrs == [] {
      assert lead + AttributeText(attrs) == lead;
    } else {
      var next := " " + attrs[0];
      var rest := attrs[1..];
      assert ';' !in next;
      assert forall k :: 0 <= k < |rest| ==> ';' !in rest[k] by {
        assert forall k :: 0 <= k < |rest| ==> rest[k] == attrs[k + 1];
      }
      SplitAttributeText(next, rest);
      assert lead + AttributeText(attrs) == lead + [';'] + (next + AttributeText(rest)) by {
        assert AttributeText(attrs) == "; " + attrs[0] + AttributeText(rest);
      }
      SplitOnAfter(lead, next + AttributeText(rest), ';');
      assert Spaced(attrs) == [next] + Spaced(rest);
    }
  }

  /** Dropping the space again gives back the attributes, none of which
      starts with white space. */
  lemma {:induction false} TrimSpaced(attrs: seq<string>)
    requires forall k :: 0 <= k < |attrs| ==> attrs[k] != [] && !IsSpace(RegexS, attrs[k][0])
    ensures TrimEach(Spaced(attrs)) == attrs
  {
    if attrs != [] {
      var rest := attrs[1..];
      assert forall k :: 0 <= k < |rest| ==> rest[k] != [] && !IsSpace(RegexS, rest[k][0]) by {
        assert forall k :: 0 <= k < |rest| ==> rest[k] == attrs[k + 1];
      }
      TrimSpaced(rest);
      var sp := Spaced(attrs);
      assert sp[0] == " " + attrs[0] && sp[1..] == Spaced(rest);
      assert TrimStart(RegexS, sp[0]) == attrs[0] by {
        assert sp[0][1..] == attrs[0];
      }
      assert attrs == [attrs[0]] + rest;
    }
  }

  /** An attribute as `cookie()` writes it: not empty, not starting with
      white space and without `;`. */
  predicate PlainAttribute(a: string) {
    a != [] && !IsSpace(RegexS, a[0]) && ';' !in a
  }

  lemma AttributesArePlain(httpOnly: bool, maxAgeSeconds: int)
    ensures forall k :: 0 <= k < |Attributes(httpOnly, maxAgeSeconds)| ==>
              PlainAttribute(Attributes(httpOnly, maxAgeSeconds)[k])
  {
    var age := "Max-Age=" + IntToString(maxAgeSeconds);
    assert PlainAttribute(age) by {
      assert age[0] == 'M';
      assert forall j :: 8 <= j < |age| ==> age[j] == IntToString(maxAgeSeconds)[j - 8];
    }
    assert PlainAttribute("Path=/") && PlainAttribute("HttpOnly") && PlainAttribute("SameSite=Lax");
  }

  /** A reader of the header this builds, splitting it as `getCookieValue`
      does, sees the pair and then exactly the attributes, provided the
      name and value hold no `;`. */
  lemma SetCookieParts(name: string, value: Option<string>, httpOnly: bool, maxAgeSeconds: int)
    requires ';' !in name && (value.Some? ==> ';' !in value.value)
    ensures Parts(SetCookieHeader(name, value, httpOnly, maxAgeSeconds)) ==
              [name + "=" + value.GetOr("")] + Attributes(httpOnly, maxAgeSeconds)
  {
    var attrs := Attributes(httpOnly, maxAgeSeconds);
    var pair := name + "=" + value.GetOr("");
    AttributesArePlain(httpOnly, maxAgeSeconds);
    assert ';' !in pair by {
      assert forall c :: c in pair ==> c in name || c == '=' || c in value.GetOr("");
    }
    var ps := SplitOn(pair + AttributeText(attrs), ';');
    assert ps == [pair] + Spaced(attrs) by {
      SplitAttributeText(pair, attrs);
    }
    assert TrimEach(ps[1..]) == attrs by {
      assert ps[1..] == Spaced(attrs);
      TrimSpaced(attrs);
    }
  }

  /** An echoed cookie reads back: looking `name` up in the header built
      for it gives the value it was set to. */
  lemma CookieReadsBack(name: string, value: Option<string>, httpOnly: bool, maxAgeSeconds: int)
    requires ';' !in name && '=' !in name && (value.Some? ==> ';' !in value.value)
    ensures CookieValue(Some([SetCookieHeader(name, value, httpOnly, maxAgeSeconds)]), name) == Some(value.GetOr(""))
  {
    var header := SetCookieHeader(name, value, httpOnly, maxAgeSeconds);
    var v := value.GetOr("");
    var pair := name + "=" + v;
    assert Parts(header)[0] == pair by {
      SetCookieParts(name, value, httpOnly, maxAgeSeconds);
    }
    assert PairValue(pair, name) == Some(v) by {
      IndexOfAfter(name, '=', v);
      assert pair == name + ['='] + v;
      assert pair[..|name|] == name && pair[|name| + 1..] == v;
    }
    assert FirstPair(Parts(header), name) == Some(v);
  }

  // ---------------------------------------------------------------------------
  // JSON escaping
  // ---------------------------------------------------------------------------

  /** Java's `s.replace(c, rep)` for a one-character target. */
  function ReplaceChar(s: string, c: char, rep: string): string {
    if s == [] then [] else (if s[0] == c then rep else [s[0]]) + ReplaceChar(s[1..], c, rep)
  }

  /** Replacing a character that does not occur changes nothing. */
  lemma {:induction false} ReplaceCharAbsent(s: string, c: char, rep: string)
    requires c !in s
    ensures ReplaceChar(s, c, rep) == s
  {
    if s != [] {
      ReplaceCharAbsent(s[1..], c, rep);
    }
  }

  /** A character that the replacement does not write is absent afterwards
      when it was the target or was absent before. */
  lemma {:induction false} ReplaceCharKeepsOut(s: string, c: char, rep: string, d: char)
    requires (d == c || d !in s) && d !in rep
    ensures d !in ReplaceChar(s, c, rep)
  {
    if s != [] {
      ReplaceCharKeepsOut(s[1..], c, rep, d);
    }
  }

  lemma {:induction false} ReplaceCharConcat(a: string, b: string, c: char, rep: string)
    ensures ReplaceChar(a + b, c, rep) == ReplaceChar(a, c, rep) + ReplaceChar(b, c, rep)
  {
    if a == [] {
      assert a + b == b;
    } else {
      var h := if a[0] == c then rep else [a[0]];
      assert ReplaceChar(a + b, c, rep) == h + ReplaceChar(a[1..] + b, c, rep) by {
        assert (a + b)[0] == a[0] && (a + b)[1..] == a[1..] + b;
      }
      ReplaceCharConcat(a[1..], b, c, rep);
    }
  }

  lemma ReplaceCharOne(x: char, c: char, rep: string)
    ensures ReplaceChar([x], c, rep) == if x == c then rep else [x]
  {
    assert [x][1..] == [];
  }

  /** The five replacements of `escapeJson`, backslash first. */
  function EscapeChain(s: string): string {
    ReplaceChar(ReplaceChar(ReplaceChar(ReplaceChar(ReplaceChar(
      s, '\\', "\\\\"), '"', "\\\""), '\n', "\\n"), '\r', "\\r"), '\t', "\\t")
  }

  /** `escapeJson`: "" for null, otherwise the string with backslash,
      quote, newline, carriage return and tab escaped. */
  function EscapeJson(s: Option<string>): string {
    if s.None? then "" else EscapeChain(s.value)
  }

  /** The escaped text holds no raw newline, carriage return or tab, and a
      string with none of the five characters is left as it is. */
  lemma EscapeJsonPlain(s: Option<string>)
    ensures s.None? ==> EscapeJson(s) == ""
    ensures '\n' !in EscapeJson(s) && '\r' !in EscapeJson(s) && '\t' !in EscapeJson(s)
    ensures (s.Some? && '\\' !in s.value && '"' !in s.value && '\n' !in s.value
             && '\r' !in s.value && '\t' !in s.value) ==> EscapeJson(s) == s.value
  {
    if s.Some? {
      var r1 := ReplaceChar(s.value, '\\', "\\\\");
      var r2 := ReplaceChar(r1, '"', "\\\"");
      var r3 := ReplaceChar(r2, '\n', "\\n");
      var r4 := ReplaceChar(r3, '\r', "\\r");
      ReplaceCharKeepsOut(r2, '\n', "\\n", '\n');
      ReplaceCharKeepsOut(r3, '\r', "\\r", '\n');
      ReplaceCharKeepsOut(r4, '\t', "\\t", '\n');
      ReplaceCharKeepsOut(r3, '\r', "\\r", '\r');
      ReplaceCharKeepsOut(r4, '\t', "\\t", '\r');
      ReplaceCharKeepsOut(r4, '\t', "\\t", '\t');
      if '\\' !in s.value && '"' !in s.value && '\n' !in s.value && '\r' !in s.value && '\t' !in s.value {
        ReplaceCharAbsent(s.value, '\\', "\\\\");
        ReplaceCharAbsent(r1, '"', "\\\"");
        ReplaceCharAbsent(r2, '\n', "\\n");
        ReplaceCharAbsent(r3, '\r', "\\r");
        ReplaceCharAbsent(r4, '\t', "\\t");
      }
    }
  }

  /** What one character becomes. */
  function EscapeOne(c: char): string {
    if c == '\\' then "\\\\"
    else if c == '"' then "\\\""
    else if c == '\n' then "\\n"
    else if c == '\r' then "\\r"
    else if c == '\t' then "\\t"
    else [c]
  }

  function EscapeEach(s: string): string {
    if s == [] then [] else EscapeOne(s[0]) + EscapeEach(s[1..])
  }

  lemma EscapeChainConcat(a: string, b: string)
    ensures EscapeChain(a + b) == EscapeChain(a) + EscapeChain(b)
  {
    var r1a, r1b := ReplaceChar(a, '\\', "\\\\"), ReplaceChar(b, '\\', "\\\\");
    ReplaceCharConcat(a, b, '\\', "\\\\");
    var r2a, r2b := ReplaceChar(r1a, '"', "\\\""), ReplaceChar(r1b, '"', "\\\"");
    ReplaceCharConcat(r1a, r1b, '"', "\\\"");
    var r3a, r3b := ReplaceChar(r2a, '\n', "\\n"), ReplaceChar(r2b, '\n', "\\n");
    ReplaceCharConcat(r2a, r2b, '\n', "\\n");
    var r4a, r4b := ReplaceChar(r3a, '\r', "\\r"), ReplaceChar(r3b, '\r', "\\r");
    ReplaceCharConcat(r3a, r3b, '\r', "\\r");
    ReplaceCharConcat(r4a, r4b, '\t', "\\t");
  }

  lemma EscapeChainOne(c: char)
    ensures EscapeChain([c]) == EscapeOne(c)
  {
    ReplaceCharOne(c, '\\', "\\\\");
    if c == '\\' {
      var t := "\\\\";
      assert '"' !in t && '\n' !in t && '\r' !in t && '\t' !in t;
    } else {
      ReplaceCharOne(c, '"', "\\\"");
      if c == '"' {
        var t := "\\\"";
        assert '\n' !in t && '\r' !in t && '\t' !in t;
      } else {
        ReplaceCharOne(c, '\n', "\\n");
        if c != '\n' {
          ReplaceCharOne(c, '\r', "\\r");
          if c != '\r' {
            ReplaceCharOne(c, '\t', "\\t");
          }
        }
      }
    }
  }

  /** Because backslashes are replaced first, the chain of replacements
      escapes each character on its own: no replacement touches the
      backslash an earlier one wrote. */
  lemma {:induction false} EscapeChainIsPerCharacter(s: string)
    ensures EscapeChain(s) == EscapeEach(s)
  {
    if s != [] {
      assert s == [s[0]] + s[1..];
      EscapeChainConcat([s[0]], s[1..]);
      EscapeChainOne(s[0]);
      EscapeChainIsPerCharacter(s[1..]);
    }
  }

  /** A reader of the five escapes: a backslash and the character after it
      stand for one character. */
  function UnescapeJson(t: string): string
    decreases |t|
  {
    if t == [] then []
    else if t[0] == '\\' && |t| >= 2 then
      [if t[1] == 'n' then '\n' else if t[1] == 'r' then '\r' else if t[1] == 't' then '\t' else t[1]]
      + UnescapeJson(t[2..])
    else [t[0]] + UnescapeJson(t[1..])
  }

  /** Reading the escaped text back gives the original string. */
  lemma {:induction false} EscapeJsonRoundTrip(s: string)
    ensures UnescapeJson(EscapeJson(Some(s))) == s
  {
    EscapeChainIsPerCharacter(s);
    EscapeEachRoundTrip(s);
  }

  lemma {:induction false} EscapeEachRoundTrip(s: string)
    ensures UnescapeJson(EscapeEach(s)) == s
  {
    if s != [] {
      EscapeEachRoundTrip(s[1..]);
      EscapeOneRoundTrip(s[0], EscapeEach(s[1..]));
      assert s == [s[0]] + s[1..];
    }
  }

  /** Reading one escaped character back, whatever follows it. */
  lemma EscapeOneRoundTrip(c: char, rest: string)
    ensures UnescapeJson(EscapeOne(c) + rest) == [c] + UnescapeJson(rest)
  {
    var t := EscapeOne(c) + rest;
    if |EscapeOne(c)| == 2 {
      assert t[2..] == rest;
    } else {
      assert t[1..] == rest;
    }
  }

  // ---------------------------------------------------------------------------
  // Users, sign-up and login
  // ---------------------------------------------------------------------------

  /** A row of the users table; `password` holds the hash. */
  datatype User = User(id: int, username: string, password: string)

  /** The users table after `signUp(username, rawPassword)`: unchanged when
      the trimmed name is taken, otherwise with a new row holding the hash
      of the trimmed password under the next id. */
  function AfterSignUp(users: map<string, User>, nextId: int, username: string, rawPassword: string,
                       hash: string -> string): map<string, User>
  {
    var name := Strip(JavaTrim, username);
    if name in users then users
    else users[name := User(nextId, name, hash(Strip(JavaTrim, rawPassword)))]
  }

  /** What `login(username, rawPassword)` returns for a given table. */
  function Authenticate(users: map<string, User>, username: string, rawPassword: string,
                        checkpw: (string, string) -> bool): Option<User>
  {
    var name := Strip(JavaTrim, username);
    if name !in users then None
    else if checkpw(Strip(JavaTrim, rawPassword), users[name].password) then Some(users[name])
    else None
  }

  /** Sign-up never changes an existing account and adds at most the one
      row for the trimmed name. */
  lemma SignUpKeepsAccounts(users: map<string, User>, nextId: int, username: string, rawPassword: string,
                            hash: string -> string)
    ensures forall k :: k in users ==>
              (k in AfterSignUp(users, nextId, username, rawPassword, hash)
               && AfterSignUp(users, nextId, username, rawPassword, hash)[k] == users[k])
    ensures AfterSignUp(users, nextId, username, rawPassword, hash).Keys == users.Keys + {Strip(JavaTrim, username)}
  {
  }

  /** With a password check that accepts a password against its own hash,
      a new account can log in right after signing up, with any password
      that trims to the same text; if the check accepts only that, it is
      the only password that logs in. */
  lemma LoginAfterSignUp(users: map<string, User>, nextId: int, username: string, rawPassword: string,
                         hash: string -> string, checkpw: (string, string) -> bool, attempt: string)
    requires Strip(JavaTrim, username) !in users
    requires forall p, q :: checkpw(p, hash(q)) <==> p == q
    ensures var after := AfterSignUp(users, nextId, username, rawPassword, hash);
            Authenticate(after, username, attempt, checkpw).Some? <==>
              Strip(JavaTrim, attempt) == Strip(JavaTrim, rawPassword)
    ensures var after := AfterSignUp(users, nextId, username, rawPassword, hash);
            Strip(JavaTrim, attempt) == Strip(JavaTrim, rawPassword) ==>
              Authenticate(after, username, attempt, checkpw)
              == Some(User(nextId, Strip(JavaTrim, username), hash(Strip(JavaTrim, rawPassword))))
  {
    var p, q := Strip(JavaTrim, attempt), Strip(JavaTrim, rawPassword);
    assert checkpw(p, hash(q)) <==> p == q;
  }

  /** The in-memory users table (`UserRepository`), keyed by username. */
  class UserRepository {
    var users: map<string, User>
    var nextId: int

    constructor ()
      ensures users == map[] && nextId == 1
    {
      users := map[];
      nextId := 1;
    }

    /** `findByUsername`. */
    method FindByUsername(username: string) returns (u: Option<User>)
      ensures u.Some? <==> username in users
      ensures u.Some? ==> u.value == users[username]
    {
      if username in users {
        u := Some(users[username]);
      } else {
        u := None;
      }
    }

    /** `save`: inserts a row and hands out the generated id. */
    method Save(username: string, password: string) returns (id: int)
      requires username !in users
      modifies this
      ensures id == old(nextId) && nextId == old(nextId) + 1
      ensures users == old(users)[username := User(id, username, password)]
    {
      id := nextId;
      users := users[username := User(id, username, password)];
      nextId := nextId + 1;
    }
  }

  datatype SignUpOutcome = SignedUp | UsernameTaken

  /** `AuthService` over a repository. */
  class AuthService {
    const repository: UserRepository

    constructor (repository: UserRepository)
      ensures this.repository == repository
    {
      this.repository := repository;
    }

    /** `signUp`: trims both inputs; a taken name is refused without saving,
        a free one is saved with the hash of the trimmed password. */
    method SignUp(username: string, rawPassword: string, hash: string -> string) returns (r: SignUpOutcome)
      requires !IsBlank(Some(username))
      modifies repository
      ensures r == UsernameTaken <==> Strip(JavaTrim, username) in old(repository.users)
      ensures repository.users == AfterSignUp(old(repository.users), old(repository.nextId), username, rawPassword, hash)
      ensures r == UsernameTaken ==> repository.nextId == old(repository.nextId)
    {
      var name := TrimToNull(Some(username)).value;
      var password := Strip(JavaTrim, rawPassword);
      var existing := repository.FindByUsername(name);
      if existing.Some? {
        return UsernameTaken;
      }
      var hashed := hash(password);
      var _ := repository.Save(name, hashed);
      r := SignedUp;
    }

    /** `login`: the user for the trimmed name when the trimmed password
        checks against the stored hash, `None` otherwise. */
    method Login(username: string, rawPassword: string, checkpw: (string, string) -> bool) returns (u: Option<User>)
      requires !IsBlank(Some(username))
      ensures u == Authenticate(repository.users, username, rawPassword, checkpw)
    {
      var name := TrimToNull(Some(username)).value;
      var password := Strip(JavaTrim, rawPassword);
      var found := repository.FindByUsername(name);
      if found.None? {
        return None;
      }
      var ok := checkpw(password, found.value.password);
      if !ok {
        return None;
      }
      u := found;
    }
  }

  // ---------------------------------------------------------------------------
  // Endpoints
  // ---------------------------------------------------------------------------

  /** What an endpoint answers: status, JSON body and `Set-Cookie` headers. */
  datatype Response = Response(status: int, body: string, setCookies: seq<string>)

  const RequiredBody: string := "{\"ok\":false,\"error\":\"username and password are required\"}"
  const TakenBody: string := "{\"ok\":false,\"error\":\"username already exists\"}"
  const InvalidBody: string := "{\"ok\":false,\"error\":\"invalid credentials\"}"
  const UnauthorizedBody: string := "{\"ok\":false,\"reason\":\"UNAUTHORIZED\"}"
  const OkBody: string := "{\"ok\":true}"

  /** The auth check's success body for a username (null written as ""). */
  function UserBody(username: Option<string>): string {
    "{\"ok\":true,\"username\":\"" + EscapeJson(username) + "\"}"
  }

  /** The username can be read back from the success body. */
  lemma UserBodyReadsBack(username: string)
    ensures var body := UserBody(Some(username));
            var head := "{\"ok\":true,\"username\":\"";
            |body| >= |head| + 2 && body[..|head|] == head && body[|body| - 2..] == "\"}"
            && UnescapeJson(body[|head|..|body| - 2]) == username
  {
    var head := "{\"ok\":true,\"username\":\"";
    var body := UserBody(Some(username));
    EscapeJsonRoundTrip(username);
    assert body[|head|..|body| - 2] == EscapeJson(Some(username));
  }

  /** The sessions map (`SESSION_STORE`). */
  class SessionStore {
    var sessions: map<string, User>

    constructor ()
      ensures sessions == map[]
    {
      sessions := map[];
    }
  }

  /** `POST /api/signup` after the form is parsed: a username that trims to
      nothing or a missing or blank password is answered 400 before the
      repository is consulted; otherwise sign-up answers 200, or 400 for a
      taken name. */
  method SignUpEndpoint(service: AuthService, params: map<string, string>, hash: string -> string)
    returns (resp: Response)
    modifies service.repository
    ensures var username := TrimToNull(Param(params, "username"));
            var password := Param(params, "password");
            if IsBlank(username) || IsBlank(password) then
              resp == Response(400, RequiredBody, []) && service.repository.users == old(service.repository.users)
            else
              service.repository.users == AfterSignUp(old(service.repository.users), old(service.repository.nextId),
                                                      username.value, password.value, hash)
              && resp == (if Strip(JavaTrim, username.value) in old(service.repository.users)
                          then Response(400, TakenBody, []) else Response(200, OkBody, []))
  {
    var username := TrimToNull(Param(params, "username"));
    var password := Param(params, "password");
    if password.Some? {
      password := Some(Strip(JavaTrim, password.value));
      StripIdempotent(JavaTrim, Param(params, "password").value);
    }
    if IsBlank(username) || IsBlank(password) {
      return Response(400, RequiredBody, []);
    }
    StripStripped(JavaTrim, username.value);
    var outcome := service.SignUp(username.value, password.value, hash);
    if outcome == UsernameTaken {
      resp := Response(400, TakenBody, []);
    } else {
      resp := Response(200, OkBody, []);
    }
  }

  /** `POST /api/login` after the form is parsed. A blank field is answered
      400 and bad credentials 401, neither touching the sessions; a valid
      login stores the user under `sessionId` and sets the session cookie,
      the JWT cookie and the front-end flag cookie. `sessionId` stands for
      the random UUID and `token` for the signed JWT of the user. */
  method LoginEndpoint(service: AuthService, store: SessionStore, params: map<string, string>,
                       checkpw: (string, string) -> bool, sessionId: string, token: User -> string)
    returns (resp: Response)
    modifies store
    ensures var username := Param(params, "username");
            var password := Param(params, "password");
            if IsBlank(username) || IsBlank(password) then
              resp == Response(400, RequiredBody, []) && store.sessions == old(store.sessions)
            else
              match Authenticate(service.repository.users, username.value, password.value, checkpw)
              case None =>
                resp == Response(401, InvalidBody, []) && store.sessions == old(store.sessions)
              case Some(u) =>
                store.sessions == old(store.sessions)[sessionId := u]
                && resp == Response(200, OkBody,
                                    [SetCookieHeader(SessionCookieName, Some(sessionId), true, -1),
                                     SetCookieHeader(JwtCookieName, Some(token(u)), true, -1),
                                     SetCookieHeader(AppAuthCookieName, Some("1"), false, -1)])
  {
    var username := Param(params, "username");
    var password := Param(params, "password");
    if IsBlank(username) || IsBlank(password) {
      return Response(400, RequiredBody, []);
    }
    var user := service.Login(username.value, password.value, checkpw);
    if user.None? {
      return Response(401, InvalidBody, []);
    }
    store.sessions := store.sessions[sessionId := user.value];
    var sessionCookie := Cookie(SessionCookieName, Some(sessionId), true, -1);
    var jwtCookie := Cookie(JwtCookieName, Some(token(user.value)), true, -1);
    var appCookie := Cookie(AppAuthCookieName, Some("1"), false, -1);
    resp := Response(200, OkBody, [sessionCookie, jwtCookie, appCookie]);
  }

  /** The user of the session named by the session cookie, if the cookie
      is not blank and the session exists. */
  function SessionUser(sessions: map<string, User>, cookies: Option<seq<string>>): Option<User> {
    var id := CookieValue(cookies, SessionCookieName);
    if !IsBlank(id) && id.value in sessions then Some(sessions[id.value]) else None
  }

  /** The outcome of verifying the JWT cookie: `None` when it is blank or
      fails verification, otherwise its username claim (`None` inside when
      the claim is missing). */
  function JwtClaim(cookies: Option<seq<string>>, verify: string -> Option<Option<string>>): Option<Option<string>> {
    var token := CookieValue(cookies, JwtCookieName);
    if IsBlank(token) then None else verify(token.value)
  }

  /** `GET /api/auth/check`: 401 when there is neither a session user nor a
      verified token; otherwise 200 with the session user's name, or the
      token's claim when there is no session user. */
  method AuthCheck(sessions: map<string, User>, cookies: Option<seq<string>>,
                   verify: string -> Option<Option<string>>) returns (resp: Response)
    ensures resp.status == 401 <==> SessionUser(sessions, cookies).None? && JwtClaim(cookies, verify).None?
    ensures resp.status == 401 ==> resp == Response(401, UnauthorizedBody, [])
    ensures resp.status != 401 ==> resp.status == 200 && resp.setCookies == []
    ensures SessionUser(sessions, cookies).Some? ==>
              resp.body == UserBody(Some(SessionUser(sessions, cookies).value.username))
    ensures SessionUser(sessions, cookies).None? && JwtClaim(cookies, verify).Some? ==>
              resp.body == UserBody(JwtClaim(cookies, verify).value)
  {
    var sessionId := GetCookieValue(cookies, SessionCookieName);
    var sessionUser: Option<User> := None;
    if !IsBlank(sessionId) && sessionId.value in sessions {
      sessionUser := Some(sessions[sessionId.value]);
    }
    var token := GetCookieValue(cookies, JwtCookieName);
    var jwtOk := false;
    var jwtUsername: Option<string> := None;
    if !IsBlank(token) {
      var decoded := verify(token.value);
      if decoded.Some? {
        jwtOk := true;
        jwtUsername := decoded.value;
      }
    }
    if sessionUser.None? && !jwtOk {
      return Response(401, UnauthorizedBody, []);
    }
    var username := if sessionUser.Some? then Some(sessionUser.value.username) else jwtUsername;
    resp := Response(200, UserBody(username), []);
  }
}
