/** SSH destinations `[user@]host[:port]`: the text form, the map key and the display form. */
module Destination {
  import opened Outcomes
  import opened Decimal
  import opened Splitting

  datatype HostTarget = HostTarget(user: Option<string>, host: string, port: Option<Port>) {

    /** Names the control-master entry of this destination. */
    function Key(): string {
      UserText(user) + "@" + host + ":" + PortText(port)
    }

    function Display(): string {
      UserPrefix(user) + host + PortSuffix(port)
    }
  }

  /** The user as it stands in the key: an absent one is empty. */
  function UserText(user: Option<string>): string {
    if user.Some? then user.value else ""
  }

  function PortText(port: Option<Port>): string {
    if port.Some? then Render(port.value) else ""
  }

  function UserPrefix(user: Option<string>): string {
    if user.Some? then user.value + "@" else ""
  }

  function PortSuffix(port: Option<Port>): string {
    if port.Some? then ":" + Render(port.value) else ""
  }

  datatype ParseError =
    | EmptyDestination
    | LeadingDash
    | EmptyUser
    | EmptyHost
    | InvalidPort
    | UnterminatedBracket
    | HostLeadingDash

  predicate StartsWith(s: string, c: char) {
    s != "" && s[0] == c
  }

  function Parse(raw: string): Result<HostTarget, ParseError> {
    if raw == "" then Err(EmptyDestination)
    else if raw[0] == '-' then Err(LeadingDash)
    else
      match SplitOnce(raw, '@')
      case None => ParseRest(None, raw)
      case Some((u, rest)) => if u == "" then Err(EmptyUser) else ParseRest(Some(u), rest)
  }

  /** The part after the user: reject an empty one, read host and port, reject a dash-led host. */
  function ParseRest(user: Option<string>, rest: string): Result<HostTarget, ParseError> {
    if rest == "" then Err(EmptyHost)
    else
      match if rest[0] == '[' then ParseBracketed(rest[1..]) else ParsePlain(rest)
      case Err(e) => Err(e)
      case Ok((host, port)) =>
        if StartsWith(host, '-') then Err(HostLeadingDash) else Ok(HostTarget(user, host, port))
  }

  /** `host]`, `host]:port` or `host]` followed by text that is ignored. */
  function ParseBracketed(stripped: string): Result<(string, Option<Port>), ParseError> {
    match SplitOnce(stripped, ']')
    case None => Err(UnterminatedBracket)
    case Some((host, tail)) =>
      if StartsWith(tail, ':') then
        match ParseU16(tail[1..])
        case None => Err(InvalidPort)
        case Some(p) => Ok((host, Some(p)))
      else Ok((host, None))
  }

  /** `host:digits`, or the whole text as the host. */
  function ParsePlain(rest: string): Result<(string, Option<Port>), ParseError> {
    match RSplitOnce(rest, ':')
    case None => Ok((rest, None))
    case Some((host, p)) =>
      if host != "" && AllDigits(p) then
        match ParseU16(p)
        case None => Err(InvalidPort)
        case Some(n) => Ok((host, Some(n)))
      else Ok((rest, None))
  }
}

/**
 What destination texts mean, written as a grammar, and how `Parse`, `Display`
 and `Key` relate to it.
 */
module DestinationTheorems {
  import opened Outcomes
  import opened Decimal
  import opened Splitting
  import opened Destination

  /** A port numeral: digits, after an optional '+' where `plus` allows one. */
  ghost predicate Numeral(s: string, p: Port, plus: bool) {
    || (s != "" && AllDigits(s) && Value(s) == p)
    || (plus && |s| > 1 && s[0] == '+' && AllDigits(s[1..]) && Value(s[1..]) == p)
  }

  /** A host text that would be read as a host and a port. */
  ghost predicate LooksLikeHostPort(host: string) {
    exists n :: 0 < n < |host| && host[n] == ':' && AllDigits(host[n + 1..])
  }

  ghost predicate ValidUser(user: Option<string>) {
    user.Some? ==> user.value != "" && '@' !in user.value && user.value[0] != '-'
  }

  /** `rest` spells an unbracketed host with an optional port. */
  ghost predicate PlainSpelling(rest: string, host: string, port: Option<Port>) {
    && host != "" && host[0] != '['
    && match port
       case None => rest == host && !LooksLikeHostPort(host)
       case Some(p) => exists digits :: rest == host + ":" + digits && Numeral(digits, p, false)
  }

  /** What may follow a closing bracket: `:port`, or text without a leading ':' that is ignored. */
  ghost predicate BracketTail(tail: string, port: Option<Port>) {
    match port
    case None => !StartsWith(tail, ':')
    case Some(p) => StartsWith(tail, ':') && Numeral(tail[1..], p, true)
  }

  /** `rest` spells a bracketed host with an optional port. */
  ghost predicate BracketSpelling(rest: string, host: string, port: Option<Port>) {
    && ']' !in host
    && exists tail :: rest == "[" + host + "]" + tail && BracketTail(tail, port)
  }

  ghost predicate RestDenotes(rest: string, host: string, port: Option<Port>) {
    && !StartsWith(host, '-')
    && (PlainSpelling(rest, host, port) || BracketSpelling(rest, host, port))
  }

  /** `raw` is the user, if any, and `rest`. */
  ghost predicate Splits(raw: string, user: Option<string>, rest: string) {
    && raw == UserPrefix(user) + rest
    && ValidUser(user)
    && (user.None? ==> '@' !in rest && !StartsWith(rest, '-'))
  }

  /** The grammar: `raw` is a spelling of `t`. */
  ghost predicate Denotes(raw: string, t: HostTarget) {
    exists rest :: Splits(raw, t.user, rest) && RestDenotes(rest, t.host, t.port)
  }

  lemma NumeralIsParseU16(s: string, p: Port)
    ensures ParseU16(s) == Some(p) <==> Numeral(s, p, true)
  {
    if s != "" && s[0] == '+' {
      assert !AllDigits(s);
    }
  }

  lemma TailIff(tail: string, host: string, port: Option<Port>)
    requires ']' !in host
    ensures ParseBracketed(host + "]" + tail) == Ok((host, port)) <==> BracketTail(tail, port)
  {
    SplitOnceUnique(host, ']', tail);
    if StartsWith(tail, ':') && port.Some? {
      NumeralIsParseU16(tail[1..], port.value);
    }
  }

  lemma BracketedReads(stripped: string, host: string, port: Option<Port>)
    requires ParseBracketed(stripped) == Ok((host, port))
    ensures BracketSpelling("[" + stripped, host, port)
  {
    var (h, tail) := SplitOnce(stripped, ']').value;
    assert stripped == host + "]" + tail;
    TailIff(tail, host, port);
    assert "[" + stripped == "[" + host + "]" + tail;
  }

  lemma BracketedSpelled(stripped: string, host: string, port: Option<Port>)
    requires BracketSpelling("[" + stripped, host, port)
    ensures ParseBracketed(stripped) == Ok((host, port))
  {
    var tail :| "[" + stripped == "[" + host + "]" + tail && BracketTail(tail, port);
    assert stripped == ("[" + stripped)[1..] == ("[" + host + "]" + tail)[1..] == host + "]" + tail;
    TailIff(tail, host, port);
  }

  lemma LastColon(host: string)
    ensures LooksLikeHostPort(host) <==>
            match RSplitOnce(host, ':')
            case None => false
            case Some((h, p)) => h != "" && AllDigits(p)
  {
    if n :| 0 < n < |host| && host[n] == ':' && AllDigits(host[n + 1..]) {
      var h, p := host[..n], host[n + 1..];
      assert host == h + [':'] + p;
      RSplitOnceUnique(h, ':', p);
    }
    match RSplitOnce(host, ':') {
      case None =>
      case Some((h, p)) =>
        var n := |h|;
        assert host[n] == ':' && host[n + 1..] == p;
    }
  }

  lemma PlainIff(rest: string, host: string, port: Option<Port>)
    requires rest != "" && rest[0] != '['
    ensures ParsePlain(rest) == Ok((host, port)) <==> PlainSpelling(rest, host, port)
  {
    LastColon(rest);
    if ParsePlain(rest) == Ok((host, port)) && port.Some? {
      var (h, p) := RSplitOnce(rest, ':').value;
      NumeralIsParseU16(p, port.value);
      assert rest == host + ":" + p && Numeral(p, port.value, false);
      assert host[0] == rest[0];
    }
    if PlainSpelling(rest, host, port) && port.Some? {
      var digits :| rest == host + ":" + digits && Numeral(digits, port.value, false);
      NumeralIsParseU16(digits, port.value);
      RSplitOnceUnique(host, ':', digits);
    }
  }

  lemma FirstOfPlain(rest: string, host: string, port: Option<Port>)
    ensures PlainSpelling(rest, host, port) ==> rest[0] == host[0] != '['
  {
  }

  /** What `ParseRest` reads before it rejects a dash-led host. */
  function HostAndPort(rest: string): Result<(string, Option<Port>), ParseError>
    requires rest != ""
  {
    if rest[0] == '[' then ParseBracketed(rest[1..]) else ParsePlain(rest)
  }

  lemma HostAndPortIff(rest: string, host: string, port: Option<Port>)
    requires rest != ""
    ensures HostAndPort(rest) == Ok((host, port)) <==>
            PlainSpelling(rest, host, port) || BracketSpelling(rest, host, port)
  {
    if rest[0] == '[' {
      assert rest == "[" + rest[1..];
      if ParseBracketed(rest[1..]) == Ok((host, port)) {
        BracketedReads(rest[1..], host, port);
      }
      if BracketSpelling(rest, host, port) {
        BracketedSpelled(rest[1..], host, port);
      }
      FirstOfPlain(rest, host, port);
    } else {
      PlainIff(rest, host, port);
    }
  }

  lemma RestIff(user: Option<string>, rest: string, t: HostTarget)
    ensures ParseRest(user, rest) == Ok(t) <==> t.user == user && RestDenotes(rest, t.host, t.port)
  {
    if rest != "" {
      HostAndPortIff(rest, t.host, t.port);
    }
  }

  /** `Parse` reads exactly the grammar; so a text denotes at most one destination. */
  lemma ParseReadsGrammar(raw: string, t: HostTarget)
    ensures Parse(raw) == Ok(t) <==> Denotes(raw, t)
  {
    if Parse(raw) == Ok(t) {
      match SplitOnce(raw, '@') {
        case None =>
          RestIff(None, raw, t);
          assert Splits(raw, t.user, raw);
        case Some((u, rest)) =>
          RestIff(Some(u), rest, t);
          assert raw[0] == u[0];
          assert Splits(raw, t.user, rest);
      }
    }
    if Denotes(raw, t) {
      var rest :| Splits(raw, t.user, rest) && RestDenotes(rest, t.host, t.port);
      RestIff(t.user, rest, t);
      match t.user {
        case None =>
          assert raw == rest;
        case Some(u) =>
          assert raw == u + ['@'] + rest;
          SplitOnceUnique(u, '@', rest);
          assert raw[0] == u[0];
      }
    }
  }

  // ---------------------------------------------------------------- rejected texts

  /** A port is announced, but no numeral up to 65535 follows. */
  ghost predicate BadPort(rest: string) {
    BadBracketPort(rest) || BadPlainPort(rest)
  }

  ghost predicate BadBracketPort(rest: string) {
    exists host, tail :: ']' !in host && rest == "[" + host + "]:" + tail && forall p :: !Numeral(tail, p, true)
  }

  ghost predicate BadPlainPort(rest: string) {
    exists host, digits ::
      && host != "" && host[0] != '[' && rest == host + ":" + digits && AllDigits(digits)
      && forall p :: !Numeral(digits, p, false)
  }

  /** Why a non-empty `rest` is rejected. */
  ghost predicate RestRejected(rest: string, e: ParseError) {
    match e
    case UnterminatedBracket => StartsWith(rest, '[') && ']' !in rest
    case InvalidPort => BadPort(rest)
    case HostLeadingDash =>
      exists host, port ::
        StartsWith(host, '-') && (PlainSpelling(rest, host, port) || BracketSpelling(rest, host, port))
    case _ => false
  }

  /** Why a text is rejected. */
  ghost predicate Rejected(raw: string, e: ParseError) {
    match e
    case EmptyDestination => raw == ""
    case LeadingDash => StartsWith(raw, '-')
    case EmptyUser => StartsWith(raw, '@')
    case EmptyHost => exists user: string :: Splits(raw, Some(user), "")
    case _ => exists user, rest :: rest != "" && Splits(raw, user, rest) && RestRejected(rest, e)
  }

  lemma NoNumeralIff(tail: string)
    ensures ParseU16(tail).None? <==> forall p :: !Numeral(tail, p, true)
  {
    forall p: Port
      ensures ParseU16(tail) == Some(p) <==> Numeral(tail, p, true)
    {
      NumeralIsParseU16(tail, p);
    }
  }

  lemma UnterminatedIff(stripped: string)
    ensures ParseBracketed(stripped) == Err(UnterminatedBracket) <==> ']' !in stripped
    ensures ParseBracketed(stripped).Err? ==>
              ParseBracketed(stripped).error.UnterminatedBracket? || ParseBracketed(stripped).error.InvalidPort?
  {
    if SplitOnce(stripped, ']').Some? {
      var (h, tail) := SplitOnce(stripped, ']').value;
      assert stripped[|h|] == ']';
    }
  }

  lemma BadPortFound(stripped: string)
    requires ParseBracketed(stripped) == Err(InvalidPort)
    ensures BadBracketPort("[" + stripped)
  {
    hide ParseU16, Numeral;
    var (h, tail) := SplitOnce(stripped, ']').value;
    NoNumeralIff(tail[1..]);
    assert "[" + stripped == "[" + h + "]:" + tail[1..];
  }

  lemma BadPortRejected(stripped: string, host: string, tail: string)
    requires ']' !in host && "[" + stripped == "[" + host + "]:" + tail && forall p :: !Numeral(tail, p, true)
    ensures ParseBracketed(stripped) == Err(InvalidPort)
  {
    assert stripped == ("[" + stripped)[1..] == host + [']'] + (":" + tail);
    SplitOnceUnique(host, ']', ":" + tail);
    assert (":" + tail)[1..] == tail;
    NoNumeralIff(tail);
  }

  lemma BracketRejectedIff(rest: string)
    requires StartsWith(rest, '[')
    ensures HostAndPort(rest) == Err(UnterminatedBracket) <==> ']' !in rest
    ensures HostAndPort(rest) == Err(InvalidPort) <==> BadPort(rest)
    ensures HostAndPort(rest).Err? ==>
              HostAndPort(rest).error.UnterminatedBracket? || HostAndPort(rest).error.InvalidPort?
  {
    hide ParseBracketed, Numeral;
    var stripped := rest[1..];
    assert rest == "[" + stripped;
    UnterminatedIff(stripped);
    if ParseBracketed(stripped) == Err(InvalidPort) {
      BadPortFound(stripped);
    }
    BadPlainNotBracketed(rest);
    if BadBracketPort(rest) {
      var host, tail :| ']' !in host && rest == "[" + host + "]:" + tail && forall p :: !Numeral(tail, p, true);
      BadPortRejected(stripped, host, tail);
    }
  }

  lemma BadPlainNotBracketed(rest: string)
    ensures BadPlainPort(rest) ==> rest[0] != '['
  {
  }

  lemma PlainRejectedIff(rest: string)
    requires rest != "" && rest[0] != '['
    ensures HostAndPort(rest) == Err(InvalidPort) <==> BadPort(rest)
    ensures HostAndPort(rest).Err? ==> HostAndPort(rest).error.InvalidPort?
  {
    if ParsePlain(rest).Err? {
      var (h, d) := RSplitOnce(rest, ':').value;
      assert rest == h + ":" + d;
      assert h[0] == rest[0];
      forall p: Port
        ensures !Numeral(d, p, false)
      {
        NumeralIsParseU16(d, p);
      }
    }
    if BadPlainPort(rest) {
      var host, d :|
        && host != "" && host[0] != '[' && rest == host + ":" + d && AllDigits(d)
        && forall p :: !Numeral(d, p, false);
      assert rest == host + [':'] + d;
      RSplitOnceUnique(host, ':', d);
      assert ParseU16(d).Some? ==> Numeral(d, ParseU16(d).value, false);
    }
  }

  lemma RestRejectedIff(user: Option<string>, rest: string, e: ParseError)
    requires rest != ""
    ensures ParseRest(user, rest) == Err(e) <==> RestRejected(rest, e)
  {
    if rest[0] == '[' {
      BracketRejectedIff(rest);
    } else {
      PlainRejectedIff(rest);
    }
    match HostAndPort(rest) {
      case Err(_) =>
        forall host, port
          ensures !(PlainSpelling(rest, host, port) || BracketSpelling(rest, host, port))
        {
          HostAndPortIff(rest, host, port);
        }
      case Ok((h, p)) =>
        HostAndPortIff(rest, h, p);
        forall host, port | PlainSpelling(rest, host, port) || BracketSpelling(rest, host, port)
          ensures host == h && port == p
        {
          HostAndPortIff(rest, host, port);
        }
    }
  }

  lemma SplitsIff(raw: string, user: Option<string>, rest: string)
    ensures Splits(raw, user, rest) <==>
            match SplitOnce(raw, '@')
            case None => user == None && rest == raw && !StartsWith(raw, '-')
            case Some((u, r)) => user == Some(u) && rest == r && u != "" && u[0] != '-'
  {
    match user {
      case None =>
        assert UserPrefix(user) + rest == rest;
      case Some(u) =>
        assert UserPrefix(user) + rest == u + ['@'] + rest;
        if '@' !in u && raw == u + ['@'] + rest {
          SplitOnceUnique(u, '@', rest);
        }
    }
  }

  lemma OnlySplit(raw: string, user: Option<string>, rest: string)
    requires Splits(raw, user, rest)
    ensures forall u, r :: Splits(raw, u, r) ==> u == user && r == rest
  {
    SplitsIff(raw, user, rest);
    forall u, r | Splits(raw, u, r)
      ensures u == user && r == rest
    {
      SplitsIff(raw, u, r);
    }
  }

  lemma SplitRejected(raw: string, user: Option<string>, rest: string, e: ParseError)
    requires Splits(raw, user, rest) && raw != "" && raw[0] != '-' && raw[0] != '@'
    ensures ParseRest(user, rest) == Err(e) <==> Rejected(raw, e)
  {
    hide RestRejected;
    OnlySplit(raw, user, rest);
    if rest == "" {
      assert user.Some?;
      assert Splits(raw, Some(user.value), "");
    } else {
      RestRejectedIff(user, rest, e);
    }
    NotRestError(rest, e);
  }

  lemma NotRestError(rest: string, e: ParseError)
    ensures RestRejected(rest, e) ==> e.UnterminatedBracket? || e.InvalidPort? || e.HostLeadingDash?
  {
  }

  /** A text led by '@' or '-', or an empty one, splits into no user and host part. */
  lemma NoSplit(raw: string, user: Option<string>, rest: string)
    requires rest != "" || user.Some?
    requires raw == "" || raw[0] == '-' || raw[0] == '@'
    ensures !Splits(raw, user, rest)
  {
    SplitsIff(raw, user, rest);
    if SplitOnce(raw, '@').Some? {
      var (u, r) := SplitOnce(raw, '@').value;
      assert raw == u + ['@'] + r;
    }
  }

  /** `Parse` rejects a text with an error exactly for the reason that error names. */
  lemma ParseRejectsIff(raw: string, e: ParseError)
    ensures Parse(raw) == Err(e) <==> Rejected(raw, e)
  {
    hide RestRejected, ParseRest;
    if raw == "" || raw[0] == '-' || raw[0] == '@' {
      forall user: Option<string>, rest | rest != "" || user.Some?
        ensures !Splits(raw, user, rest)
      {
        NoSplit(raw, user, rest);
      }
      LedBySeparator(raw);
    } else {
      match SplitOnce(raw, '@') {
        case None =>
          SplitsIff(raw, None, raw);
          SplitRejected(raw, None, raw, e);
        case Some((u, rest)) =>
          assert raw == u + ['@'] + rest;
          SplitsIff(raw, Some(u), rest);
          SplitRejected(raw, Some(u), rest, e);
      }
    }
  }

  lemma LedBySeparator(raw: string)
    ensures StartsWith(raw, '@') ==> SplitOnce(raw, '@').Some? && SplitOnce(raw, '@').value.0 == ""
  {
    if StartsWith(raw, '@') {
      assert raw == "" + ['@'] + raw[1..];
      SplitOnceUnique("", '@', raw[1..]);
    }
  }

  // ---------------------------------------------------------------- display

  /** The destinations whose display form reads back. */
  ghost predicate Canonical(t: HostTarget) {
    && ValidUser(t.user)
    && t.host != "" && t.host[0] != '[' && t.host[0] != '-'
    && (t.user.None? ==> '@' !in t.host)
    && (t.port.None? ==> !LooksLikeHostPort(t.host))
  }

  /** The destinations with a bracketed spelling. */
  ghost predicate Bracketable(t: HostTarget) {
    && ValidUser(t.user)
    && ']' !in t.host && !StartsWith(t.host, '-')
    && (t.user.None? ==> '@' !in t.host)
  }

  /** The spelling of `t` with literal brackets around the host. */
  function BracketText(t: HostTarget): string {
    UserPrefix(t.user) + BracketRest(t.host, t.port)
  }

  function BracketRest(host: string, port: Option<Port>): string {
    "[" + host + "]" + PortSuffix(port)
  }

  lemma SuffixIsTail(port: Option<Port>)
    ensures BracketTail(PortSuffix(port), port)
    ensures '@' !in PortSuffix(port)
  {
    if port.Some? {
      RenderRoundTrip(port.value);
      assert PortSuffix(port)[1..] == Render(port.value);
    }
  }

  lemma PrefixCancel(prefix: string, a: string, b: string)
    requires prefix + a == prefix + b
    ensures a == b
  {
    assert a == (prefix + a)[|prefix|..];
    assert b == (prefix + b)[|prefix|..];
  }

  /** A display form is never a bracketed spelling of the same destination. */
  lemma DisplayIsNotBracketed(host: string, port: Option<Port>)
    ensures !BracketSpelling(host + PortSuffix(port), host, port)
  {
    var rest := host + PortSuffix(port);
    if port.Some? {
      RenderRoundTrip(port.value);
      // the bracket closing the host would have to be the first digit of the port
      assert rest[|host| + 1] == Render(port.value)[0] != ']';
    }
    forall tail | BracketTail(tail, port)
      ensures rest != "[" + host + "]" + tail
    {
      var spelled := "[" + host + "]" + tail;
      assert spelled[|host| + 1] == ']';
    }
  }

  lemma DisplayedRestIff(host: string, port: Option<Port>)
    ensures RestDenotes(host + PortSuffix(port), host, port) <==>
            host != "" && host[0] != '[' && host[0] != '-' && (port.None? ==> !LooksLikeHostPort(host))
  {
    DisplayIsNotBracketed(host, port);
    match port {
      case None =>
        assert host + PortSuffix(port) == host;
      case Some(p) =>
        RenderRoundTrip(p);
        assert host + PortSuffix(port) == host + ":" + Render(p);
    }
  }

  lemma DisplayDenotesIff(t: HostTarget)
    ensures Denotes(t.Display(), t) <==> Canonical(t)
  {
    var rest := t.host + PortSuffix(t.port);
    assert t.Display() == UserPrefix(t.user) + rest;
    DisplayedRestIff(t.host, t.port);
    SuffixIsTail(t.port);
    assert '@' in rest <==> '@' in t.host;
    assert t.host != "" ==> rest[0] == t.host[0];
    forall r | t.Display() == UserPrefix(t.user) + r
      ensures r == rest
    {
      PrefixCancel(UserPrefix(t.user), r, rest);
    }
  }

  /** Displaying and parsing gives the destination back exactly when it is canonical. */
  lemma DisplayParseRoundTrip(t: HostTarget)
    ensures Parse(t.Display()) == Ok(t) <==> Canonical(t)
  {
    ParseReadsGrammar(t.Display(), t);
    DisplayDenotesIff(t);
  }

  /** The text after the user. */
  function HostPart(raw: string): string {
    if SplitOnce(raw, '@').Some? then SplitOnce(raw, '@').value.1 else raw
  }

  /** A text whose host part has no opening bracket is accepted only as a canonical destination. */
  lemma UnbracketedIsCanonical(raw: string, t: HostTarget)
    requires Parse(raw) == Ok(t)
    requires !StartsWith(HostPart(raw), '[')
    ensures Canonical(t) && Parse(t.Display()) == Ok(t)
  {
    var rest := HostPart(raw);
    RestIff(t.user, rest, t);
    assert PlainSpelling(rest, t.host, t.port);
    ParseReadsGrammar(raw, t);
    if t.user.None? && t.port.Some? {
      var digits :| rest == t.host + ":" + digits && Numeral(digits, t.port.value, false);
      assert forall i | 0 <= i < |t.host| :: t.host[i] == rest[i];
    }
    DisplayParseRoundTrip(t);
  }

  /** The text ends in a colon and port digits with a superfluous zero. */
  ghost predicate ZeroLedPort(rest: string) {
    exists n :: 0 < n < |rest| && rest[n] == ':' && AllDigits(rest[n + 1..]) && SuperfluousZero(rest[n + 1..])
  }

  lemma NoPortNoZero(host: string)
    requires !LooksLikeHostPort(host)
    ensures !ZeroLedPort(host)
  {
  }

  lemma LastColonAt(host: string, digits: string, n: nat)
    requires AllDigits(digits) && n <= |host| + |digits|
    ensures var rest := host + ":" + digits;
            rest[n] == ':' && AllDigits(rest[n + 1..]) ==> n == |host|
  {
    var rest := host + ":" + digits;
    assert rest[|host|] == ':' && !IsDigit(':');
    if n < |host| {
      assert rest[n + 1..][|host| - n - 1] == ':';
    } else if n > |host| {
      assert rest[n] == digits[n - |host| - 1];
    }
  }

  lemma ZeroLedIff(host: string, digits: string)
    requires host != "" && AllDigits(digits)
    ensures ZeroLedPort(host + ":" + digits) <==> SuperfluousZero(digits)
  {
    hide SuperfluousZero, AllDigits;
    var rest := host + ":" + digits;
    var at := |host|;
    assert rest[at] == ':' && rest[at + 1..] == digits;
    if SuperfluousZero(digits) {
      NoZeroInEmpty();
      assert 0 < at < |rest|;
    }
    if ZeroLedPort(rest) {
      var n :| 0 < n < |rest| && rest[n] == ':' && AllDigits(rest[n + 1..]) && SuperfluousZero(rest[n + 1..]);
      LastColonAt(host, digits, n);
    }
  }

  lemma NoZeroInEmpty()
    ensures !SuperfluousZero("")
  {
  }

  lemma PlainTextIff(rest: string, host: string, port: Option<Port>)
    requires PlainSpelling(rest, host, port)
    ensures rest == host + PortSuffix(port) <==> !ZeroLedPort(rest)
  {
    hide ZeroLedPort, SuperfluousZero, Render, LooksLikeHostPort;
    match port {
      case None =>
        assert host + PortSuffix(port) == host;
        NoPortNoZero(host);
      case Some(p) =>
        var digits :| rest == host + ":" + digits && Numeral(digits, p, false);
        ZeroLedIff(host, digits);
        RenderIsShortest(digits);
        PrefixCancelIff(host + ":", digits, Render(p));
        assert host + PortSuffix(port) == host + ":" + Render(p);
    }
  }

  lemma PrefixCancelIff(prefix: string, a: string, b: string)
    ensures prefix + a == prefix + b <==> a == b
  {
    if prefix + a == prefix + b {
      PrefixCancel(prefix, a, b);
    }
  }

  lemma TypedParts(raw: string, t: HostTarget)
    requires Parse(raw) == Ok(t) && !StartsWith(HostPart(raw), '[')
    ensures PlainSpelling(HostPart(raw), t.host, t.port)
    ensures raw == UserPrefix(t.user) + HostPart(raw)
  {
    RestIff(t.user, HostPart(raw), t);
    if SplitOnce(raw, '@').None? {
      assert UserPrefix(t.user) + raw == raw;
    }
  }

  lemma PrefixedTextIff(user: Option<string>, rest: string, host: string, port: Option<Port>)
    ensures HostTarget(user, host, port).Display() == UserPrefix(user) + rest <==> host + PortSuffix(port) == rest
  {
    hide PortSuffix, UserPrefix;
    assert HostTarget(user, host, port).Display() == UserPrefix(user) + (host + PortSuffix(port));
    PrefixCancelIff(UserPrefix(user), host + PortSuffix(port), rest);
  }

  /**
   An accepted text with an unbracketed host is displayed as it was typed exactly when its
   port digits, if any, have no superfluous zero.
   */
  lemma DisplayedAsTyped(raw: string, t: HostTarget)
    requires Parse(raw) == Ok(t)
    requires !StartsWith(HostPart(raw), '[')
    ensures t.Display() == raw <==> !ZeroLedPort(HostPart(raw))
  {
    hide *;
    TypedParts(raw, t);
    PlainTextIff(HostPart(raw), t.host, t.port);
    PrefixedTextIff(t.user, HostPart(raw), t.host, t.port);
  }

  /** The key is the displayed text with the separators of absent parts put in. */
  lemma KeyIsDisplayCompleted(t: HostTarget)
    ensures t.Key() == (if t.user.None? then "@" else "") + t.Display() + (if t.port.None? then ":" else "")
  {
  }

  lemma BracketRestDenotes(host: string, port: Option<Port>)
    requires ']' !in host && !StartsWith(host, '-')
    ensures RestDenotes(BracketRest(host, port), host, port)
    ensures BracketRest(host, port)[0] == '['
    ensures '@' in BracketRest(host, port) ==> '@' in host
  {
    SuffixIsTail(port);
    var tail := PortSuffix(port);
    assert BracketRest(host, port) == "[" + host + "]" + tail;
  }

  lemma HostInsideRest(rest: string, host: string, port: Option<Port>)
    requires PlainSpelling(rest, host, port) || BracketSpelling(rest, host, port)
    requires '@' !in rest
    ensures '@' !in host
  {
    var off := if PlainSpelling(rest, host, port) then 0 else 1;
    assert |host| + off <= |rest|;
    assert forall i | 0 <= i < |host| :: host[i] == rest[i + off];
  }

  /** The bracketed spelling reads back exactly for the bracketable destinations. */
  lemma BracketTextParses(t: HostTarget)
    ensures Parse(BracketText(t)) == Ok(t) <==> Bracketable(t)
  {
    var text, spelled := BracketText(t), BracketRest(t.host, t.port);
    ParseReadsGrammar(text, t);
    if Bracketable(t) {
      BracketRestDenotes(t.host, t.port);
    }
    if Denotes(text, t) {
      var rest :| Splits(text, t.user, rest) && RestDenotes(rest, t.host, t.port);
      PrefixCancel(UserPrefix(t.user), rest, spelled);
      FirstOfPlain(rest, t.host, t.port);
      if t.user.None? {
        HostInsideRest(rest, t.host, t.port);
      }
    }
  }

  /** The destinations that can be typed at all. */
  lemma ImageOfParse(t: HostTarget)
    ensures (exists raw :: Parse(raw) == Ok(t)) <==> Canonical(t) || Bracketable(t)
  {
    if raw :| Parse(raw) == Ok(t) {
      ParseReadsGrammar(raw, t);
      var rest :| Splits(raw, t.user, rest) && RestDenotes(rest, t.host, t.port);
      if t.user.None? {
        HostInsideRest(rest, t.host, t.port);
      }
    }
    if Canonical(t) {
      DisplayParseRoundTrip(t);
    }
    if Bracketable(t) {
      BracketTextParses(t);
    }
  }

  /** The destination argument handed to `ssh`; the port travels separately. */
  function DestinationArgument(t: HostTarget): string {
    UserPrefix(t.user) + t.host
  }

  /** The displayed text is the destination argument and the port, which travels separately. */
  lemma ArgumentIsDisplayWithoutPort(t: HostTarget)
    ensures t.Display() == DestinationArgument(t) + PortSuffix(t.port)
  {
  }

  /** No accepted text puts a dash-led destination argument on the `ssh` command line. */
  lemma NoOptionInjection(raw: string, t: HostTarget)
    requires Parse(raw) == Ok(t)
    ensures !StartsWith(DestinationArgument(t), '-')
  {
    hide Parse;
    ImageOfParse(t);
    if t.user.Some? {
      assert DestinationArgument(t)[0] == t.user.value[0];
    } else {
      assert DestinationArgument(t) == t.host;
    }
  }

  /** The IPv6 literal of the program's own test does not survive display. */
  lemma Ipv6DisplayIsNotReadBack()
    ensures Parse("[::1]") == Ok(HostTarget(None, "::1", None))
    ensures Parse(HostTarget(None, "::1", None).Display()) == Ok(HostTarget(None, ":", Some(1)))
  {
    hide Parse;
    var t, u := HostTarget(None, "::1", None), HostTarget(None, ":", Some(1));
    assert Parse(BracketText(t)) == Ok(t) by {
      BracketTextParses(t);
    }
    assert BracketText(t) == "[::1]";
    assert Parse(u.Display()) == Ok(u) by {
      DisplayParseRoundTrip(u);
    }
    assert Render(1) == "1";
    assert u.Display() == "::1" == t.Display();
  }

  /** The texts of the three fields, read from a key. */
  function KeyParts(key: string): Option<(string, string, string)> {
    match SplitOnce(key, '@')
    case None => None
    case Some((user, rest)) =>
      match RSplitOnce(rest, ':')
      case None => None
      case Some((host, port)) => Some((user, host, port))
  }

  lemma KeyFields(t: HostTarget)
    requires ValidUser(t.user)
    ensures KeyParts(t.Key()).Some?
    ensures var (user, host, port) := KeyParts(t.Key()).value;
            && host == t.host
            && t.user == (if user == "" then None else Some(user))
            && t.port == (if port == "" then None else ParseU16(port))
  {
    var user, port := UserText(t.user), PortText(t.port);
    if t.port.Some? {
      ParseRenderedU16(t.port.value);
      RenderRoundTrip(t.port.value);
    }
    assert t.Key() == user + ['@'] + (t.host + ":" + port);
    SplitOnceUnique(user, '@', t.host + ":" + port);
    RSplitOnceUnique(t.host, ':', port);
  }

  lemma PortTextInjective(a: Option<Port>, b: Option<Port>)
    ensures ':' !in PortText(a)
    ensures PortText(a) == PortText(b) <==> a == b
  {
    if a.Some? {
      RenderRoundTrip(a.value);
    }
    if b.Some? {
      RenderRoundTrip(b.value);
    }
  }

  /** Two arbitrary destinations share a key exactly when port and user-and-host text agree. */
  lemma KeyEqualIff(a: HostTarget, b: HostTarget)
    ensures a.Key() == b.Key() <==>
            a.port == b.port && UserText(a.user) + "@" + a.host == UserText(b.user) + "@" + b.host
  {
    PortTextInjective(a.port, b.port);
    PortTextInjective(b.port, a.port);
    var left, right := UserText(a.user) + "@" + a.host, UserText(b.user) + "@" + b.host;
    assert a.Key() == left + [':'] + PortText(a.port);
    assert b.Key() == right + [':'] + PortText(b.port);
    RSplitOnceUnique(left, ':', PortText(a.port));
    RSplitOnceUnique(right, ':', PortText(b.port));
  }

  /**
   Destinations whose users have no '@', parsed or not, share a key exactly when they
   have the same host, the same port and the same user, an empty one read as none.
   */
  lemma KeyEqualFieldsIff(a: HostTarget, b: HostTarget)
    requires '@' !in UserText(a.user) && '@' !in UserText(b.user)
    ensures a.Key() == b.Key() <==> UserText(a.user) == UserText(b.user) && a.host == b.host && a.port == b.port
  {
    KeyEqualIff(a, b);
    SplitOnceUnique(UserText(a.user), '@', a.host);
    SplitOnceUnique(UserText(b.user), '@', b.host);
    assert UserText(a.user) + "@" + a.host == UserText(a.user) + ['@'] + a.host;
    assert UserText(b.user) + "@" + b.host == UserText(b.user) + ['@'] + b.host;
  }

  /** Keys of destinations that some text denotes are equal only for equal destinations. */
  lemma KeyInjective(a: HostTarget, b: HostTarget)
    requires exists raw :: Parse(raw) == Ok(a)
    requires exists raw :: Parse(raw) == Ok(b)
    ensures a.Key() == b.Key() <==> a == b
  {
    ImageOfParse(a);
    ImageOfParse(b);
    KeyEqualFieldsIff(a, b);
  }

  /** Unparsed destinations can share a key as no parsed pair does: an empty user reads as no user. */
  lemma UnparsedKeysCollide(host: string, port: Option<Port>)
    ensures HostTarget(Some(""), host, port).Key() == HostTarget(None, host, port).Key()
    ensures forall raw :: Parse(raw) != Ok(HostTarget(Some(""), host, port))
  {
    KeyEqualFieldsIff(HostTarget(Some(""), host, port), HostTarget(None, host, port));
    ImageOfParse(HostTarget(Some(""), host, port));
  }
}
