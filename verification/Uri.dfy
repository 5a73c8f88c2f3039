/**
 * `URI::decode`, which takes a URI apart with a cursor that moves over the text, and `URI::unescape_path`.
 * The reference is the composition of a URI from its components (section 5.3 of RFC 3986).
 */
module Uri {
  import opened Options

  datatype Error = ExpectedColon | MalformedIpv6 | OutOfRange

  datatype Result<+T> = Ok(value: T) | Err(error: Error)

  // ----- splitting at the first delimiter -----

  /** The index of the first character that is a delimiter, or the length. */
  function Index(s: string, delimiters: set<char>): (i: nat)
    ensures i <= |s|
    ensures forall j :: 0 <= j < i ==> s[j] !in delimiters
    ensures i < |s| ==> s[i] in delimiters
  {
    if s == [] then 0 else if s[0] in delimiters then 0 else 1 + Index(s[1..], delimiters)
  }

  predicate Has(s: string, delimiters: set<char>) {
    Index(s, delimiters) < |s|
  }

  function Before(s: string, delimiters: set<char>): string {
    s[..Index(s, delimiters)]
  }

  /** What follows the first delimiter. */
  function After(s: string, delimiters: set<char>): string
    requires Has(s, delimiters)
  {
    s[Index(s, delimiters) + 1..]
  }

  predicate Free(s: string, delimiters: set<char>) {
    forall c :: c in s ==> c !in delimiters
  }

  lemma FreeHasNone(s: string, delimiters: set<char>)
    requires Free(s, delimiters)
    ensures !Has(s, delimiters) && Before(s, delimiters) == s
  {
    assert forall i :: 0 <= i < |s| ==> s[i] in s;
  }

  lemma SplitAtDelimiter(before: string, d: char, after: string, delimiters: set<char>)
    requires Free(before, delimiters) && d in delimiters
    ensures var s := before + [d] + after;
      Has(s, delimiters) && Before(s, delimiters) == before && After(s, delimiters) == after
  {
    var s := before + [d] + after;
    assert s[|before|] == d;
    assert forall i :: 0 <= i < |before| ==> s[i] == before[i] && before[i] in before;
  }

  // ----- what decode computes -----

  datatype Parts = Parts(
    scheme: string, authority: string, userInfo: string, username: string, password: string,
    host: string, port: string, path: string, query: string, fragment: string,
    secure: bool, ipv6: bool, authorityPresent: bool)

  function NoParts(): Parts {
    Parts("", "", "", "", "", "", "", "", "", "", false, false, false)
  }

  datatype Hierarchy = Hierarchy(authorityPresent: bool, authority: string, path: string, query: string, fragment: string)

  datatype Location = Location(userInfo: string, host: string, port: string, ipv6: bool)

  function Lower(s: string): string {
    seq(|s|, i requires 0 <= i < |s| => LowerChar(s[i]))
  }

  function LowerChar(c: char): char {
    if 'A' <= c <= 'Z' then c - 'A' + 'a' else c
  }

  /** Path, query and fragment, when there is an authority; `start` is where the path should begin. */
  function DecodeTail(pathExists: bool, start: string): (string, string, string) {
    if Has(start, {'?'}) then
      var rest := After(start, {'?'});
      (Before(start, {'?'}), Before(rest, {'#'}), if Has(rest, {'#'}) then Before(After(rest, {'#'}), {'#'}) else "")
    else if Has(start, {'#'}) then
      (Before(start, {'#'}), "", Before(After(start, {'#'}), {'#'}))
    else
      (if pathExists then start else "", "", "")
  }

  /** Everything after the scheme. Any slash is taken for the two that announce an authority. */
  function DecodeHierarchy(s: string): Result<Hierarchy> {
    if !Has(s, {'/'}) then Ok(Hierarchy(false, "", Before(s, {'#'}), "", ""))
    else if After(s, {'/'}) == "" then Err(OutOfRange)
    else Ok(DecodeWithAuthority(After(s, {'/'})[1..]))
  }

  function DecodeWithAuthority(s: string): Hierarchy {
    var authority := Before(s, {'/'});
    var tail := DecodeTail(Has(s, {'/'}), if Has(s, {'/'}) then s[|authority|..] else s);
    Hierarchy(true, authority, tail.0, tail.1, tail.2)
  }

  function DecodeHost(s: string): Result<Location> {
    if Has(s, {'['}) then
      if Has(s[1..], {']'}) then Ok(Location("", Before(s[1..], {']'}), "", true)) else Err(MalformedIpv6)
    else if Has(s, {':'}) then Ok(Location("", Before(s, {':'}), Before(After(s, {':'}), {'#'}), false))
    else Ok(Location("", s, "", false))
  }

  function DecodeAuthority(s: string): Result<Location> {
    if Has(s, {'@'}) then
      match DecodeHost(After(s, {'@'}))
      case Err(e) => Err(e)
      case Ok(l) => Ok(l.(userInfo := Before(s, {'@'})))
    else DecodeHost(s)
  }

  function DecodeUserInfo(s: string): (string, string) {
    if Has(s, {':'}) then (Before(s, {':'}), Before(After(s, {':'}), {'#'})) else (s, "")
  }

  predicate IsSecure(scheme: string, port: string, query: string) {
    || scheme == "ssh" || scheme == "https" || port == "443"
    || ((scheme == "postgres" || scheme == "postgresql") && Has(query, SslTrue()))
  }

  /** `find_first_of("ssl=true")` looks for any of these characters. */
  function SslTrue(): set<char> {
    {'s', 'l', '=', 't', 'r', 'u', 'e'}
  }

  function Assemble(scheme: string, h: Hierarchy, l: Location): Parts {
    var user := DecodeUserInfo(l.userInfo);
    Parts(scheme, h.authority, l.userInfo, user.0, user.1, l.host, l.port, h.path, h.query, h.fragment,
      IsSecure(scheme, l.port, h.query), l.ipv6, h.authorityPresent)
  }

  function Decode(s: string): Result<Parts> {
    if !Has(s, {':'}) then Err(ExpectedColon)
    else
      match DecodeHierarchy(After(s, {':'}))
      case Err(e) => Err(e)
      case Ok(h) =>
        match DecodeAuthority(h.authority)
        case Err(e) => Err(e)
        case Ok(l) => Ok(Assemble(Lower(Before(s, {':'})), h, l))
  }

  predicate WithHierarchy(before: Parts, after: Parts, h: Hierarchy) {
    after == before.(authorityPresent := h.authorityPresent, authority := h.authority, path := h.path, query := h.query, fragment := h.fragment)
  }

  predicate WithLocation(before: Parts, after: Parts, l: Location) {
    after == before.(userInfo := l.userInfo, host := l.host, port := l.port, ipv6 := l.ipv6)
  }

  // ----- the class -----

  class URI {
    var parts: Parts
    var parseTarget: string
    var leftPosition: nat

    /** What is still ahead of the cursor. */
    function Rest(): string
      requires leftPosition <= |parseTarget|
      reads this
    {
      parseTarget[leftPosition..]
    }

    constructor ()
      ensures parts == NoParts()
    {
      parts, parseTarget, leftPosition := NoParts(), "", 0;
    }

    /** `find_first_of`; `None` is `npos`. */
    function FindFirstOf(delimiters: set<char>): (position: Option<nat>)
      reads this
      ensures position.Some? ==> leftPosition <= position.value < |parseTarget|
    {
      if leftPosition <= |parseTarget| && Has(Rest(), delimiters) then Some(leftPosition + Index(Rest(), delimiters)) else None
    }

    /** Without an error message, not finding the delimiter is no error. */
    method CaptureUpTo(delimiters: set<char>, message: Option<Error>) returns (captured: Result<string>)
      ensures leftPosition > |parseTarget| ==> captured == Err(if message.Some? then message.value else OutOfRange)
      ensures leftPosition <= |parseTarget| && message.Some? && !Has(Rest(), delimiters) ==> captured == Err(message.value)
      ensures leftPosition <= |parseTarget| && (message.None? || Has(Rest(), delimiters)) ==> captured == Ok(Before(Rest(), delimiters))
    {
      var right := FindFirstOf(delimiters);
      if right.None? && message.Some? {
        return Err(message.value);
      }
      if leftPosition > |parseTarget| {
        return Err(OutOfRange);
      }
      captured := Ok(if right.Some? then parseTarget[leftPosition..right.value] else parseTarget[leftPosition..]);
      assert captured.value == Rest()[..Index(Rest(), delimiters)];
    }

    method MoveBefore(delimiters: set<char>) returns (moved: bool)
      requires leftPosition <= |parseTarget|
      modifies this`leftPosition
      ensures moved == old(Has(Rest(), delimiters))
      ensures leftPosition == old(leftPosition) + if moved then old(Index(Rest(), delimiters)) else 0
      ensures leftPosition <= |parseTarget|
    {
      var position := FindFirstOf(delimiters);
      if position.Some? {
        leftPosition := position.value;
        return true;
      }
      moved := false;
    }

    predicate ExistsForward(delimiters: set<char>)
      requires leftPosition <= |parseTarget|
      reads this
    {
      Has(Rest(), delimiters)
    }

    /** Capture the text before a delimiter that exists, and move to after it. */
    method CaptureAndPass(delimiter: char) returns (captured: string)
      requires leftPosition <= |parseTarget| && ExistsForward({delimiter})
      modifies this`leftPosition
      ensures captured == old(Before(Rest(), {delimiter}))
      ensures leftPosition <= |parseTarget| && Rest() == old(After(Rest(), {delimiter}))
    {
      var c := CaptureUpTo({delimiter}, None);
      captured := c.value;
      var moved := MoveBefore({delimiter});
      leftPosition := leftPosition + 1;
    }

    /** Capture up to a delimiter that may not be there, within the target. */
    method Capture(delimiter: char) returns (captured: string)
      requires leftPosition <= |parseTarget|
      ensures captured == Before(Rest(), {delimiter})
    {
      var c := CaptureUpTo({delimiter}, None);
      captured := c.value;
    }

    method Reset(target: string)
      modifies this`parseTarget, this`leftPosition
      ensures parseTarget == target && leftPosition == 0 && Rest() == target
    {
      parseTarget, leftPosition := target, 0;
    }

    /** The part of `decode` about path, query and fragment, once the cursor is where the path should begin. */
    method DecodeTailHere(pathExists: bool)
      requires leftPosition <= |parseTarget|
      requires parts.path == "" && parts.query == "" && parts.fragment == ""
      modifies this`leftPosition, this`parts
      ensures var t := DecodeTail(pathExists, old(Rest()));
        parts == old(parts).(path := t.0, query := t.1, fragment := t.2)
    {
      if ExistsForward({'?'}) {
        var path := CaptureAndPass('?');
        parts := parts.(path := path);
        if ExistsForward({'#'}) {
          var query := CaptureAndPass('#');
          var fragment := Capture('#');
          parts := parts.(query := query, fragment := fragment);
        } else {
          var query := Capture('#');
          parts := parts.(query := query);
        }
      } else if ExistsForward({'#'}) {
        var path := CaptureAndPass('#');
        var fragment := Capture('#');
        parts := parts.(path := path, fragment := fragment);
      } else if pathExists {
        var path := Capture('#');
        parts := parts.(path := path);
      }
    }

    method DecodeWithAuthorityHere()
      requires leftPosition <= |parseTarget|
      requires parts == NoParts().(scheme := parts.scheme, authorityPresent := true)
      modifies this`leftPosition, this`parts
      ensures WithHierarchy(old(parts), parts, DecodeWithAuthority(old(Rest())))
    {
      var authority := Capture('/');
      parts := parts.(authority := authority);
      var pathExists := MoveBefore({'/'});
      assert pathExists ==> Rest() == old(Rest())[|authority|..];
      DecodeTailHere(pathExists);
    }

    method DecodeHierarchyHere() returns (error: Option<Error>)
      requires leftPosition <= |parseTarget|
      requires parts == NoParts().(scheme := parts.scheme)
      modifies this`leftPosition, this`parts
      ensures DecodeHierarchy(old(Rest())).Err? ==> error == Some(DecodeHierarchy(old(Rest())).error)
      ensures DecodeHierarchy(old(Rest())).Ok? ==> error == None && WithHierarchy(old(parts), parts, DecodeHierarchy(old(Rest())).value)
    {
      var authorityPresent := MoveBefore({'/'});
      if !authorityPresent {
        var path := Capture('#');
        parts := parts.(path := path);
        return None;
      }
      parts := parts.(authorityPresent := true);
      assert parseTarget[leftPosition + 1..] == old(After(Rest(), {'/'}));
      leftPosition := leftPosition + 2;
      if leftPosition > |parseTarget| {
        var outside := CaptureUpTo({'/'}, None);
        return Some(outside.error);
      }
      assert Rest() == old(After(Rest(), {'/'}))[1..];
      DecodeWithAuthorityHere();
      error := None;
    }

    method DecodeHostHere() returns (error: Option<Error>)
      requires leftPosition <= |parseTarget|
      requires parts.host == "" && parts.port == "" && !parts.ipv6
      modifies this`leftPosition, this`parts
      ensures DecodeHost(old(Rest())).Err? ==> error == Some(DecodeHost(old(Rest())).error)
      ensures DecodeHost(old(Rest())).Ok? ==> error == None && parts == old(parts).(host := DecodeHost(old(Rest())).value.host, port := DecodeHost(old(Rest())).value.port, ipv6 := DecodeHost(old(Rest())).value.ipv6)
    {
      error := None;
      if ExistsForward({'['}) {
        leftPosition := leftPosition + 1;
        assert Rest() == old(Rest())[1..];
        var host := CaptureUpTo({']'}, Some(MalformedIpv6));
        if host.Err? {
          return Some(host.error);
        }
        leftPosition := leftPosition + 1;
        parts := parts.(host := host.value, ipv6 := true);
      } else if ExistsForward({':'}) {
        var host := CaptureAndPass(':');
        var port := Capture('#');
        parts := parts.(host := host, port := port);
      } else {
        var host := Capture(':');
        parts := parts.(host := host);
      }
    }

    method DecodeAuthorityHere() returns (error: Option<Error>)
      requires parts.userInfo == "" && parts.host == "" && parts.port == "" && !parts.ipv6
      modifies this
      ensures DecodeAuthority(old(parts).authority).Err? ==> error == Some(DecodeAuthority(old(parts).authority).error)
      ensures DecodeAuthority(old(parts).authority).Ok? ==> error == None && WithLocation(old(parts), parts, DecodeAuthority(old(parts).authority).value)
    {
      Reset(parts.authority);
      if ExistsForward({'@'}) {
        var userInfo := CaptureAndPass('@');
        parts := parts.(userInfo := userInfo);
      }
      error := DecodeHostHere();
    }

    method DecodeUserInfoHere()
      requires parts.username == "" && parts.password == ""
      modifies this
      ensures var u := DecodeUserInfo(old(parts).userInfo); parts == old(parts).(username := u.0, password := u.1)
    {
      Reset(parts.userInfo);
      if ExistsForward({':'}) {
        var username := CaptureAndPass(':');
        var password := Capture('#');
        parts := parts.(username := username, password := password);
      } else {
        var username := Capture(':');
        parts := parts.(username := username);
      }
    }

    method UpdateSecure()
      requires !parts.secure
      modifies this
      ensures parts == old(parts).(secure := IsSecure(parts.scheme, parts.port, parts.query))
    {
      if parts.scheme == "ssh" || parts.scheme == "https" || parts.port == "443" {
        parts := parts.(secure := true);
      }
      if parts.scheme == "postgres" || parts.scheme == "postgresql" {
        Reset(parts.query);
        if ExistsForward(SslTrue()) {
          parts := parts.(secure := true);
        }
      }
    }

    /** `assign` on a new object. What was decoded before an exception stays in the object. */
    method Assign(whole: string) returns (error: Option<Error>)
      requires parts == NoParts()
      modifies this
      ensures Decode(whole).Err? ==> error == Some(Decode(whole).error)
      ensures Decode(whole).Ok? ==> error == None && parts == Decode(whole).value
    {
      Reset(whole);
      var scheme := CaptureUpTo({':'}, Some(ExpectedColon));
      if scheme.Err? {
        return Some(scheme.error);
      }
      parts := parts.(scheme := Lower(scheme.value));
      leftPosition := leftPosition + |parts.scheme| + 1;
      assert Rest() == After(whole, {':'});
      error := DecodeHierarchyHere();
      if error.Some? {
        return;
      }
      error := DecodeAuthorityHere();
      if error.Some? {
        return;
      }
      DecodeUserInfoHere();
      UpdateSecure();
    }
  }

  // ----- composition -----

  /** The components of a URI with an authority; the path is as it appears in the URI. An `ipv6` host is in brackets. */
  datatype Components = Components(
    scheme: string, user: Option<string>, password: Option<string>, host: string, ipv6: bool,
    port: Option<string>, path: string, query: Option<string>, fragment: Option<string>)

  /** `prefix` and the component, when there is one. */
  function Optional(prefix: string, component: Option<string>): string {
    if component.Some? then prefix + component.value else ""
  }

  function Text(component: Option<string>): string {
    if component.Some? then component.value else ""
  }

  function ComposeHost(c: Components): string {
    (if c.ipv6 then "[" + c.host + "]" else c.host) + Optional(":", c.port)
  }

  function ComposeUserInfo(c: Components): string {
    Text(c.user) + Optional(":", c.password)
  }

  function ComposeAuthority(c: Components): string {
    if c.user.Some? then ComposeUserInfo(c) + "@" + ComposeHost(c) else ComposeHost(c)
  }

  function ComposeTail(c: Components): string {
    c.path + Optional("?", c.query) + Optional("#", c.fragment)
  }

  /** Section 5.3 of RFC 3986. */
  function Compose(c: Components): string {
    c.scheme + ":" + ("//" + ComposeAuthority(c) + ComposeTail(c))
  }

  /** No component contains a delimiter that ends it, and the path is absolute. */
  predicate Valid(c: Components) {
    && Free(c.scheme, {':'})
    && (c.password.Some? ==> c.user.Some?)
    && Free(Text(c.user), {':', '@', '/'}) && Free(Text(c.password), {'@', '/', '#'})
    && Free(c.host, {'[', ']', '@', '/'}) && (!c.ipv6 ==> Free(c.host, {':'}))
    && Free(Text(c.port), {'[', ']', '@', '/', '#'})
    && c.path != "" && c.path[0] == '/' && Free(c.path, {'?', '#'})
    && Free(Text(c.query), {'#'}) && Free(Text(c.fragment), {'#'})
  }

  /** What `decode` should give. The port of an ipv6 host is not looked for. */
  function Expected(c: Components): Parts {
    var port := if c.ipv6 then "" else Text(c.port);
    Parts(Lower(c.scheme), ComposeAuthority(c), ComposeUserInfo(c), Text(c.user), Text(c.password),
      c.host, port, c.path, Text(c.query), Text(c.fragment), IsSecure(Lower(c.scheme), port, Text(c.query)), c.ipv6, true)
  }

  /** The fragment would be taken for a query. */
  predicate QuestionInFragment(c: Components) {
    c.query.None? && Has(Text(c.fragment), {'?'})
  }

  lemma Ipv6Host(host: string, port: string)
    requires Free(host, {']'})
    ensures DecodeHost("[" + host + "]" + port) == Ok(Location("", host, "", true))
  {
    var s := "[" + host + "]" + port;
    assert s == "" + ['['] + (host + [']'] + port);
    SplitAtDelimiter("", '[', host + [']'] + port, {'['});
    assert s[1..] == host + [']'] + port;
    SplitAtDelimiter(host, ']', port, {']'});
  }

  lemma NamedHost(host: string, port: Option<string>)
    requires Free(host, {'[', ':'}) && Free(Text(port), {'[', '#'})
    ensures DecodeHost(host + Optional(":", port)) == Ok(Location("", host, Text(port), false))
  {
    var s := host + Optional(":", port);
    FreeHasNone(s, {'['});
    if port.Some? {
      assert s == host + [':'] + port.value;
      SplitAtDelimiter(host, ':', port.value, {':'});
      FreeHasNone(port.value, {'#'});
    } else {
      assert s == host;
      FreeHasNone(s, {':'});
    }
  }

  lemma HostRoundTrip(c: Components)
    requires Valid(c)
    ensures DecodeHost(ComposeHost(c)) == Ok(Location("", c.host, if c.ipv6 then "" else Text(c.port), c.ipv6))
  {
    if c.ipv6 {
      Ipv6Host(c.host, Optional(":", c.port));
    } else {
      NamedHost(c.host, c.port);
    }
  }

  lemma AuthorityRoundTrip(c: Components)
    requires Valid(c)
    ensures DecodeAuthority(ComposeAuthority(c)) ==
      Ok(Location(ComposeUserInfo(c), c.host, if c.ipv6 then "" else Text(c.port), c.ipv6))
  {
    HostRoundTrip(c);
    if c.user.Some? {
      SplitAtDelimiter(ComposeUserInfo(c), '@', ComposeHost(c), {'@'});
    } else {
      FreeHasNone(ComposeHost(c), {'@'});
    }
  }

  lemma UserInfoRoundTrip(c: Components)
    requires Valid(c)
    ensures DecodeUserInfo(ComposeUserInfo(c)) == (Text(c.user), Text(c.password))
  {
    if c.password.Some? {
      assert ComposeUserInfo(c) == Text(c.user) + [':'] + c.password.value;
      SplitAtDelimiter(Text(c.user), ':', c.password.value, {':'});
      FreeHasNone(c.password.value, {'#'});
    } else {
      assert ComposeUserInfo(c) == Text(c.user);
      FreeHasNone(Text(c.user), {':'});
    }
  }

  lemma TailWithQuery(path: string, query: string, fragment: Option<string>)
    requires Free(path, {'?'}) && Free(query, {'#'}) && Free(Text(fragment), {'#'})
    ensures DecodeTail(true, path + ['?'] + (query + Optional("#", fragment))) == (path, query, Text(fragment))
  {
    SplitAtDelimiter(path, '?', query + Optional("#", fragment), {'?'});
    FragmentRoundTrip(query, fragment);
  }

  lemma TailWithFragment(path: string, fragment: string)
    requires Free(path, {'?', '#'}) && Free(fragment, {'?', '#'})
    ensures DecodeTail(true, path + ['#'] + fragment) == (path, "", fragment)
  {
    SplitAtDelimiter(path, '#', fragment, {'#'});
    FreeHasNone(fragment, {'#'});
    FreeHasNone(path + ['#'] + fragment, {'?'});
  }

  lemma TailWithQuestionInFragment(path: string, fragment: string)
    requires Free(path, {'?'}) && Has(fragment, {'?'})
    ensures DecodeTail(true, path + ['#'] + fragment).0 == path + ['#'] + Before(fragment, {'?'})
  {
    var before, after := Before(fragment, {'?'}), After(fragment, {'?'});
    assert fragment == before + ['?'] + after;
    assert path + ['#'] + fragment == (path + ['#'] + before) + ['?'] + after;
    SplitAtDelimiter(path + ['#'] + before, '?', after, {'?'});
  }

  lemma TailOnlyPath(path: string)
    requires Free(path, {'?', '#'})
    ensures DecodeTail(true, path) == (path, "", "")
  {
    FreeHasNone(path, {'?'});
    FreeHasNone(path, {'#'});
  }

  lemma TailRoundTrip(c: Components)
    requires Valid(c)
    ensures DecodeTail(true, ComposeTail(c)) == (c.path, Text(c.query), Text(c.fragment)) <==> !QuestionInFragment(c)
  {
    if c.query.Some? {
      assert ComposeTail(c) == c.path + ['?'] + (c.query.value + Optional("#", c.fragment));
      TailWithQuery(c.path, c.query.value, c.fragment);
    } else if c.fragment.Some? {
      assert ComposeTail(c) == c.path + ['#'] + c.fragment.value;
      if QuestionInFragment(c) {
        TailWithQuestionInFragment(c.path, c.fragment.value);
      } else {
        NoneMeansFree(c.fragment.value, {'?'});
        TailWithFragment(c.path, c.fragment.value);
      }
    } else {
      assert ComposeTail(c) == c.path;
      TailOnlyPath(c.path);
    }
  }

  lemma NoneMeansFree(s: string, delimiters: set<char>)
    requires !Has(s, delimiters)
    ensures Free(s, delimiters)
  {
  }

  lemma FragmentRoundTrip(before: string, fragment: Option<string>)
    requires Free(before, {'#'}) && Free(Text(fragment), {'#'})
    ensures var s := before + Optional("#", fragment); Before(s, {'#'}) == before && (Has(s, {'#'}) <==> fragment.Some?)
    ensures var s := before + Optional("#", fragment);
      fragment.Some? ==> Has(s, {'#'}) && Before(After(s, {'#'}), {'#'}) == fragment.value
  {
    var s := before + Optional("#", fragment);
    if fragment.Some? {
      assert s == before + ['#'] + fragment.value;
      SplitAtDelimiter(before, '#', fragment.value, {'#'});
      FreeHasNone(fragment.value, {'#'});
    } else {
      assert s == before;
      FreeHasNone(s, {'#'});
    }
  }

  lemma AuthorityIsFree(c: Components)
    requires Valid(c)
    ensures Free(ComposeAuthority(c), {'/'})
  {
    assert Free(ComposeHost(c), {'/'});
    assert Free(ComposeUserInfo(c), {'/'});
  }

  lemma HierarchyOf(authority: string, start: string)
    requires Free(authority, {'/'}) && start != "" && start[0] == '/'
    ensures var tail := DecodeTail(true, start);
      DecodeHierarchy("//" + authority + start) == Ok(Hierarchy(true, authority, tail.0, tail.1, tail.2))
  {
    var s := "//" + authority + start;
    var rest := authority + start;
    assert s == "" + ['/'] + ("/" + rest);
    SplitAtDelimiter("", '/', "/" + rest, {'/'});
    assert ("/" + rest)[1..] == rest;
    assert rest == authority + ['/'] + start[1..];
    SplitAtDelimiter(authority, '/', start[1..], {'/'});
    assert rest[|authority|..] == start;
  }

  /** The parts that come from a composed URI, whatever became of path, query and fragment. */
  lemma DecodeOfCompose(c: Components)
    requires Valid(c)
    ensures var tail := DecodeTail(true, ComposeTail(c));
      Decode(Compose(c)) == Ok(Assemble(Lower(c.scheme), Hierarchy(true, ComposeAuthority(c), tail.0, tail.1, tail.2), Location(ComposeUserInfo(c), c.host, if c.ipv6 then "" else Text(c.port), c.ipv6)))
  {
    var rest := "//" + ComposeAuthority(c) + ComposeTail(c);
    assert Compose(c) == c.scheme + [':'] + rest;
    SplitAtDelimiter(c.scheme, ':', rest, {':'});
    AuthorityIsFree(c);
    HierarchyOf(ComposeAuthority(c), ComposeTail(c));
    AuthorityRoundTrip(c);
  }

  /**
   * Composing and decoding gives back every component, with the scheme in lower case, exactly when there is no
   * question mark in a fragment without a query before it.
   */
  lemma RoundTrip(c: Components)
    requires Valid(c)
    ensures Decode(Compose(c)) == Ok(Expected(c)) <==> !QuestionInFragment(c)
  {
    DecodeOfCompose(c);
    TailRoundTrip(c);
    UserInfoRoundTrip(c);
  }

  /** The port is read back exactly when there is none, or the host is not an ipv6 address. */
  lemma PortRoundTrip(c: Components)
    requires Valid(c)
    ensures Decode(Compose(c)).Ok?
    ensures Decode(Compose(c)).value.port == Text(c.port) <==> !c.ipv6 || Text(c.port) == ""
  {
    DecodeOfCompose(c);
  }

  predicate FirstSlashIsLast(s: string) {
    s != "" && s[|s| - 1] == '/' && Free(s[..|s| - 1], {'/'})
  }

  lemma NothingAfterSlash(s: string)
    ensures Has(s, {'/'}) && After(s, {'/'}) == "" <==> FirstSlashIsLast(s)
  {
    if FirstSlashIsLast(s) {
      assert s == s[..|s| - 1] + ['/'] + "";
      SplitAtDelimiter(s[..|s| - 1], '/', "", {'/'});
    } else if Has(s, {'/'}) {
      var i := Index(s, {'/'});
      assert Free(s[..i], {'/'});
    }
  }

  lemma HierarchyOutOfRange(s: string)
    ensures DecodeHierarchy(s) == Err(OutOfRange) <==> FirstSlashIsLast(s)
    ensures DecodeHierarchy(s).Err? ==> DecodeHierarchy(s).error == OutOfRange
  {
    NothingAfterSlash(s);
  }

  lemma AuthorityError(s: string)
    ensures DecodeAuthority(s).Err? ==> DecodeAuthority(s).error == MalformedIpv6
  {
  }

  /** The cursor leaves the text exactly when the first slash after the scheme is the last character. */
  lemma OutOfRangeExactly(scheme: string, rest: string)
    requires Free(scheme, {':'})
    ensures Decode(scheme + [':'] + rest) == Err(OutOfRange) <==> FirstSlashIsLast(rest)
  {
    SplitAtDelimiter(scheme, ':', rest, {':'});
    HierarchyOutOfRange(rest);
    if DecodeHierarchy(rest).Ok? {
      AuthorityError(DecodeHierarchy(rest).value.authority);
    }
  }

  // ----- without an authority -----

  /** What follows the scheme in a URI without an authority. */
  function ComposeRest(path: string, query: Option<string>, fragment: Option<string>): string {
    path + Optional("?", query) + Optional("#", fragment)
  }

  predicate ValidRest(path: string, query: Option<string>, fragment: Option<string>) {
    Free(path, {'?', '#'}) && Free(Text(query), {'#'}) && Free(Text(fragment), {'#'})
  }

  predicate WithoutAuthority(d: Result<Parts>, path: string) {
    d.Ok? && !d.value.authorityPresent && d.value.path == path
  }

  lemma HierarchyWithoutSlash(path: string, query: Option<string>, fragment: Option<string>)
    requires ValidRest(path, query, fragment) && Free(ComposeRest(path, query, fragment), {'/'})
    ensures DecodeHierarchy(ComposeRest(path, query, fragment)) == Ok(Hierarchy(false, "", path + Optional("?", query), "", ""))
  {
    FreeHasNone(ComposeRest(path, query, fragment), {'/'});
    FragmentRoundTrip(path + Optional("?", query), fragment);
  }

  lemma SlashMeansAuthority(s: string)
    requires Has(s, {'/'})
    ensures DecodeHierarchy(s).Ok? ==> DecodeHierarchy(s).value.authorityPresent
    ensures !Free(s, {'/'})
  {
    if Free(s, {'/'}) {
      FreeHasNone(s, {'/'});
    }
  }

  lemma NoAuthority()
    ensures DecodeAuthority("") == Ok(Location("", "", "", false)) && DecodeUserInfo("") == ("", "")
  {
  }

  /**
   * A URI without an authority is decoded to one without an authority and with its path exactly when no slash follows
   * the scheme and there is no query; to all of its components exactly when there is no fragment either.
   */
  lemma PathWithoutAuthority(scheme: string, path: string, query: Option<string>, fragment: Option<string>)
    requires Free(scheme, {':'}) && ValidRest(path, query, fragment)
    ensures var rest := ComposeRest(path, query, fragment);
      WithoutAuthority(Decode(scheme + [':'] + rest), path) <==> Free(rest, {'/'}) && query.None?
    ensures var rest := ComposeRest(path, query, fragment);
      var d := Decode(scheme + [':'] + rest);
      WithoutAuthority(d, path) && d.value.query == Text(query) && d.value.fragment == Text(fragment) <==>
        Free(rest, {'/'}) && query.None? && Text(fragment) == ""
  {
    var rest := ComposeRest(path, query, fragment);
    SplitAtDelimiter(scheme, ':', rest, {':'});
    if Has(rest, {'/'}) {
      SlashMeansAuthority(rest);
    } else {
      NoneMeansFree(rest, {'/'});
      HierarchyWithoutSlash(path, query, fragment);
      NoAuthority();
    }
  }

  /** Whatever follows a single slash is taken for the second one. */
  lemma SingleSlashIsTwo(scheme: string, c: char, more: string)
    requires Free(scheme, {':'})
    ensures Decode(scheme + [':'] + (['/', c] + more)) == Decode(scheme + [':'] + (['/', '/'] + more))
  {
    HierarchyAfterSlash(c, more);
    HierarchyAfterSlash('/', more);
    SplitAtDelimiter(scheme, ':', ['/', c] + more, {':'});
    SplitAtDelimiter(scheme, ':', ['/', '/'] + more, {':'});
  }

  lemma HierarchyAfterSlash(c: char, more: string)
    ensures DecodeHierarchy(['/', c] + more) == Ok(DecodeWithAuthority(more))
  {
    assert ['/', c] + more == "" + ['/'] + ([c] + more);
    SplitAtDelimiter("", '/', [c] + more, {'/'});
    assert ([c] + more)[1..] == more;
  }

  function HostAndPath(scheme: string, host: string, path: string): Components {
    Components(scheme, None, None, host, false, None, path, None, None)
  }

  lemma ComposeHostAndPath(scheme: string, host: string, path: string)
    ensures Compose(HostAndPath(scheme, host, path)) == scheme + [':'] + (['/', '/'] + (host + path))
  {
    var c := HostAndPath(scheme, host, path);
    assert ComposeAuthority(c) == host && ComposeTail(c) == path;
  }

  /**
   * So an absolute path loses its first segment: all but the first letter of it becomes the authority. From "file:/etc/passwd"
   * come the authority "tc" and the path "/passwd".
   */
  lemma FirstSegmentIsLost(scheme: string, c: char, segment: string, path: string)
    requires Free(scheme, {':'}) && Free(segment, {'[', ']', '@', '/', ':'})
    requires path != "" && path[0] == '/' && Free(path, {'?', '#'})
    ensures var d := Decode(scheme + [':'] + (['/', c] + (segment + path)));
      d.Ok? && d.value.authorityPresent && d.value.authority == segment && d.value.host == segment && d.value.path == path
  {
    var components := HostAndPath(scheme, segment, path);
    SingleSlashIsTwo(scheme, c, segment + path);
    ComposeHostAndPath(scheme, segment, path);
    assert Decode(Compose(components)) == Ok(Expected(components)) by {
      RoundTrip(components);
    }
    assert ComposeAuthority(components) == segment;
  }

  // ----- ssl=true -----

  /** `text` occurs in `s`; this is what the search for "ssl=true" is meant to find. */
  ghost predicate Contains(s: string, text: string) {
    exists i: nat :: OccursAt(s, text, i)
  }

  predicate OccursAt(s: string, text: string, i: nat) {
    i + |text| <= |s| && s[i..i + |text|] == text
  }

  predicate IsPostgres(scheme: string) {
    scheme == "postgres" || scheme == "postgresql"
  }

  lemma ContainsHasLetters(query: string)
    requires Contains(query, "ssl=true")
    ensures Has(query, SslTrue())
  {
    var i: nat :| OccursAt(query, "ssl=true", i);
    assert query[i] == query[i..i + |"ssl=true"|][0] == 's';
  }

  /** The condition under which looking for any of the letters is as good as looking for the text. */
  ghost predicate SslIsRecognized(port: string, query: string) {
    if port == "443" then Contains(query, "ssl=true")
    else Contains(query, "ssl=true") || forall i :: 0 <= i < |query| ==> query[i] !in SslTrue()
  }

  /** A postgres URI, however it was written: it is secure when its query says so, exactly under that condition. */
  lemma PostgresIsSecure(s: string)
    ensures var d := Decode(s);
      d.Ok? && IsPostgres(d.value.scheme) ==>
        ((d.value.secure <==> Contains(d.value.query, "ssl=true")) <==> SslIsRecognized(d.value.port, d.value.query))
  {
    if Decode(s).Ok? {
      var p := Decode(s).value;
      assert p.secure == IsSecure(p.scheme, p.port, p.query);
      if Contains(p.query, "ssl=true") {
        ContainsHasLetters(p.query);
      }
    }
  }

  /** The same for a URI that is composed of components: the query of the components is the one that counts. */
  lemma ComposedPostgresIsSecure(c: Components)
    requires Valid(c) && IsPostgres(Lower(c.scheme)) && !QuestionInFragment(c)
    ensures Decode(Compose(c)).Ok?
    ensures (Decode(Compose(c)).value.secure <==> Contains(Text(c.query), "ssl=true")) <==>
      SslIsRecognized(if c.ipv6 then "" else Text(c.port), Text(c.query))
  {
    RoundTrip(c);
    PostgresIsSecure(Compose(c));
  }

  /** For example, a query that turns it off makes the URI secure. */
  lemma SslFalseIsSecure(c: Components)
    requires Valid(c) && IsPostgres(Lower(c.scheme)) && c.query == Some("ssl=false")
    ensures Decode(Compose(c)).Ok? && Decode(Compose(c)).value.secure
    ensures !Contains(Text(c.query), "ssl=true")
  {
    RoundTrip(c);
    SslFalse();
  }

  lemma SslFalse()
    ensures Has("ssl=false", SslTrue()) && !Contains("ssl=false", "ssl=true")
  {
    var query := "ssl=false";
    assert query[0] in SslTrue();
    forall i: nat | i + |"ssl=true"| <= |query|
      ensures !OccursAt(query, "ssl=true", i)
    {
      var found := query[i..i + |"ssl=true"|];
      if i == 0 {
        assert found[4] == query[4] == 'f';
      } else {
        assert found[1] == query[2] == 'l';
      }
      assert "ssl=true"[1] == 's' && "ssl=true"[4] == 't';
    }
  }

  // ----- percent-encoding -----

  function HexValue(c: char): Option<nat> {
    if '0' <= c <= '9' then Some(c as nat - '0' as nat)
    else if 'a' <= c <= 'f' then Some(c as nat - 'a' as nat + 10)
    else if 'A' <= c <= 'F' then Some(c as nat - 'A' as nat + 10)
    else None
  }

  /** The characters that stand for themselves. */
  predicate IsPlain(c: char) {
    c in "-_.!~*'():@&=+$,/;" || 'a' <= c <= 'z' || 'A' <= c <= 'Z' || '0' <= c <= '9'
  }

  /** `s` begins with a percent sign and two hexadecimal digits of the value of `c`. */
  predicate BeginsWithEscape(s: string, c: char) {
    && |s| >= 3 && s[0] == '%'
    && HexValue(s[1]).Some? && HexValue(s[2]).Some?
    && c as nat == 16 * HexValue(s[1]).value + HexValue(s[2]).value
  }

  /** `s` is one of the encodings of `text`: section 2.1 of RFC 3986, with digits of either case. */
  predicate Encodes(s: string, text: string) {
    if text == "" then s == ""
    else if s != "" && IsPlain(s[0]) then s[0] == text[0] && Encodes(s[1..], text[1..])
    else BeginsWithEscape(s, text[0]) && Encodes(s[3..], text[1..])
  }

  lemma EncodesPlain(c: char, s: string, text: string)
    requires IsPlain(c) && Encodes(s, text)
    ensures Encodes([c] + s, [c] + text)
  {
    assert ([c] + s)[1..] == s && ([c] + text)[1..] == text;
  }

  lemma EncodesEscape(escape: string, c: char, s: string, text: string)
    requires |escape| == 3 && BeginsWithEscape(escape, c) && Encodes(s, text)
    ensures Encodes(escape + s, [c] + text)
  {
    assert (escape + s)[3..] == s && ([c] + text)[1..] == text;
    assert BeginsWithEscape(escape + s, c);
  }

  lemma Regroup(s: string, n: nat, more: string)
    requires n <= |s|
    ensures s[..n] + (s[n..] + more) == s + more
  {
  }

  /** Encodings can be put one after the other. */
  lemma {:induction false} EncodesAppend(s: string, text: string, s': string, text': string)
    requires Encodes(s, text) && Encodes(s', text')
    ensures Encodes(s + s', text + text')
  {
    if text == "" {
      assert s + s' == s' && text + text' == text';
    } else {
      var n := if IsPlain(s[0]) then 1 else 3;
      EncodesAppend(s[n..], text[1..], s', text');
      EncodesFirst(s[..n], text[..1], s[n..] + s', text[1..] + text');
      Regroup(s, n, s');
      Regroup(text, 1, text');
    }
  }

  /** One character and its encoding can be put in front. */
  lemma EncodesFirst(first: string, c: string, s: string, text: string)
    requires |c| == 1 && Encodes(s, text)
    requires (|first| == 1 && IsPlain(first[0]) && first[0] == c[0]) || (|first| == 3 && BeginsWithEscape(first, c[0]))
    ensures Encodes(first + s, c + text)
  {
    if |first| == 1 {
      assert first == [c[0]] == c;
      EncodesPlain(c[0], s, text);
    } else {
      EncodesEscape(first, c[0], s, text);
      assert c == [c[0]];
    }
  }

  lemma EncodesAlone(first: string, c: char)
    requires (|first| == 1 && IsPlain(first[0]) && first[0] == c) || (|first| == 3 && BeginsWithEscape(first, c))
    ensures Encodes(first, [c])
  {
    EncodesFirst(first, [c], "", "");
    assert first + "" == first && [c] + "" == [c];
  }

  /** No text but one has a given encoding. */
  lemma {:induction false} DecodingIsUnique(s: string, a: string, b: string)
    requires Encodes(s, a) && Encodes(s, b)
    ensures a == b
  {
    if a != "" && b != "" {
      if IsPlain(s[0]) {
        DecodingIsUnique(s[1..], a[1..], b[1..]);
      } else {
        DecodingIsUnique(s[3..], a[1..], b[1..]);
      }
      assert a == [a[0]] + a[1..] && b == [b[0]] + b[1..];
    }
  }

  /** `s` can not be decoded from here on. */
  predicate Malformed(s: string) {
    && s != "" && !IsPlain(s[0])
    && !(|s| >= 3 && s[0] == '%' && HexValue(s[1]).Some? && HexValue(s[2]).Some?)
  }

  /** Nothing that begins with an encoding, followed by something malformed, is an encoding. */
  lemma {:induction false} MalformedEncodesNothing(s: string, text: string, rest: string, other: string)
    requires Encodes(s, text) && Malformed(rest)
    ensures !Encodes(s + rest, other)
  {
    if text == "" {
      assert s + rest == rest;
    } else if other != "" {
      if IsPlain(s[0]) {
        assert (s + rest)[1..] == s[1..] + rest;
        MalformedEncodesNothing(s[1..], text[1..], rest, other[1..]);
      } else {
        assert (s + rest)[3..] == s[3..] + rest;
        MalformedEncodesNothing(s[3..], text[1..], rest, other[1..]);
      }
    }
  }

  lemma NotAnEncoding(s: string, i: nat, text: string)
    requires i <= |s| && Encodes(s[..i], text) && Malformed(s[i..])
    ensures forall other :: !Encodes(s, other)
  {
    assert s == s[..i] + s[i..];
    forall other
      ensures !Encodes(s, other)
    {
      MalformedEncodesNothing(s[..i], text, s[i..], other);
    }
  }

  lemma EncodesOneEscape(s: string, i: nat, text: string, c: char)
    requires i + 3 <= |s| && Encodes(s[..i], text) && BeginsWithEscape(s[i..i + 3], c)
    ensures Encodes(s[..i + 3], text + [c])
  {
    assert s[..i + 3] == s[..i] + s[i..i + 3];
    EncodesAlone(s[i..i + 3], c);
    EncodesAppend(s[..i], text, s[i..i + 3], [c]);
  }

  lemma EncodesOnePlain(s: string, i: nat, text: string)
    requires i < |s| && Encodes(s[..i], text) && IsPlain(s[i])
    ensures Encodes(s[..i + 1], text + [s[i]])
  {
    assert s[..i + 1] == s[..i] + [s[i]];
    EncodesAlone([s[i]], s[i]);
    EncodesAppend(s[..i], text, [s[i]], [s[i]]);
  }

  /** The value of the two digits after position `i`, computed as in the inner loop of `unescape_path`. */
  method TwoDigits(input: string, i: nat) returns (value: Option<nat>)
    requires i + 3 <= |input|
    ensures value.Some? <==> HexValue(input[i + 1]).Some? && HexValue(input[i + 2]).Some?
    ensures value.Some? ==> value.value == 16 * HexValue(input[i + 1]).value + HexValue(input[i + 2]).value < 256
  {
    var sum: nat := 0;
    for j := i + 1 to i + 3
      invariant j == i + 1 ==> sum == 0
      invariant j > i + 1 ==> HexValue(input[i + 1]).Some?
      invariant j == i + 2 ==> sum == 16 * HexValue(input[i + 1]).value
      invariant j == i + 3 ==> HexValue(input[i + 2]).Some?
      invariant j == i + 3 ==> sum == 16 * HexValue(input[i + 1]).value + HexValue(input[i + 2]).value
    {
      var digit := HexValue(input[j]);
      if digit.None? {
        return None;
      }
      sum := sum + digit.value;
      if j == i + 1 {
        sum := sum * 16;
      }
    }
    value := Some(sum);
  }

  /**
   * `unescape_path`: successful exactly when the input is an encoding, and then `out` is what it encodes. Otherwise
   * `out` is what the part before the first malformed character encodes.
   */
  method UnescapePath(input: string) returns (ok: bool, out: string)
    ensures ok ==> Encodes(input, out)
    ensures !ok ==> exists n :: 0 <= n < |input| && Encodes(input[..n], out) && Malformed(input[n..])
    ensures forall text :: Encodes(input, text) ==> ok && out == text
  {
    out := "";
    var i := 0;
    while i < |input|
      invariant i <= |input| && Encodes(input[..i], out)
    {
      if input[i] == '%' {
        var value := None;
        if i + 3 <= |input| {
          value := TwoDigits(input, i);
        }
        if value.None? {
          NotAnEncoding(input, i, out);
          return false, out;
        }
        EncodesOneEscape(input, i, out, value.value as char);
        out := out + [value.value as char];
        i := i + 3;
      } else if IsPlain(input[i]) {
        EncodesOnePlain(input, i, out);
        out := out + [input[i]];
        i := i + 1;
      } else {
        NotAnEncoding(input, i, out);
        return false, out;
      }
    }
    assert input[..i] == input;
    forall text | Encodes(input, text)
      ensures out == text
    {
      DecodingIsUnique(input, out, text);
    }
    ok := true;
  }

  /** `get_path` does not look at the success of `unescape_path`. */
  method GetPath(path: string) returns (text: string)
    ensures exists n :: 0 <= n <= |path| && Encodes(path[..n], text) && (n < |path| ==> Malformed(path[n..]))
    ensures forall t :: Encodes(path, t) ==> text == t
  {
    var ok;
    ok, text := UnescapePath(path);
    if ok {
      assert path[..|path|] == path;
    }
  }

  /** An encoding of an absolute path is a valid path of a URI. */
  lemma {:induction false} EncodedPathIsFree(s: string, text: string)
    requires Encodes(s, text)
    ensures Free(s, {'?', '#'})
    ensures text != "" && s != "" && IsPlain(s[0]) ==> s[0] == text[0]
  {
    if text != "" {
      if IsPlain(s[0]) {
        EncodedPathIsFree(s[1..], text[1..]);
        assert s == [s[0]] + s[1..];
      } else {
        EncodedPathIsFree(s[3..], text[1..]);
        assert s == [s[0], s[1], s[2]] + s[3..];
      }
    }
  }

  /** The whole way: compose a URI around any encoding of a path, decode it, and ask for the path. */
  method PathRoundTrip(c: Components, text: string) returns (path: string)
    requires Valid(c.(path := "/")) && !QuestionInFragment(c)
    requires c.path != "" && c.path[0] == '/' && Encodes(c.path, text)
    ensures path == text
  {
    EncodedPathIsFree(c.path, text);
    RoundTrip(c);
    var uri := new URI();
    var error := uri.Assign(Compose(c));
    path := GetPath(uri.parts.path);
  }
}
