/** CRtspSession::ParseRtspRequest of src/CRtspSession.cpp.

    The functions read a request as the rest of the receive buffer from the current position on; past its end the
    buffer holds NUL, as it was cleared before the request was read. */
module RtspParser {
  import opened Wrappers

  const MAX_HOSTNAME_LEN := 56
  const RTSP_PARAM_STRING_MAX := 50
  const NUL := '\0'

  // ----- character classes and the loops over them

  datatype Class = Space | Slash | Token | Separator | Digit | LineText

  predicate IsSpace(c: char) { c == ' ' || '\t' <= c <= '\r' }
  predicate IsBlank(c: char) { c == ' ' || c == '\t' }
  predicate IsDigit(c: char) { '0' <= c <= '9' }

  predicate In(c: char, cls: Class) {
    match cls
    case Space => IsSpace(c)
    case Slash => c == '/'
    case Token => c != NUL && !IsSpace(c) && c != '/'
    case Separator => c == ';' || IsBlank(c)
    case Digit => IsDigit(c)
    case LineText => c != NUL && c != '\r'
  }

  function Skip(t: string, cls: Class): (n: nat)
    ensures n <= |t|
    ensures forall i :: 0 <= i < n ==> In(t[i], cls)
    ensures n < |t| ==> !In(t[n], cls)
  {
    if t != "" && In(t[0], cls) then 1 + Skip(t[1..], cls) else 0
  }

  lemma {:induction false} SkipIs(t: string, cls: Class, n: nat)
    requires n <= |t| && (forall i :: 0 <= i < n ==> In(t[i], cls)) && (n < |t| ==> !In(t[n], cls))
    ensures Skip(t, cls) == n
  {
    hide In;
  }

  function Rest(t: string, cls: Class): string {
    t[Skip(t, cls)..]
  }

  predicate Ended(t: string) {
    t == "" || t[0] == NUL
  }

  function Hd(t: string, i: nat): char {
    if i < |t| then t[i] else NUL
  }

  function Lower(c: char): char {
    if 'A' <= c <= 'Z' then c + 32 as char else c
  }

  predicate StartsNoCase(t: string, lower: string) {
    |lower| <= |t| && forall i :: 0 <= i < |lower| ==> Lower(t[i]) == lower[i]
  }

  function Value(digits: string): nat {
    if digits == "" then 0 else
      10 * Value(digits[..|digits| - 1]) + DigitValue(digits[|digits| - 1])
  }

  function DigitValue(c: char): nat {
    if IsDigit(c) then c as int - '0' as int else 0
  }

  // ----- the request line

  /** The loop that copies the command name: up to a blank, at most 19 characters. */
  function NameLength(t: string, most: nat): (n: nat)
    ensures n <= |t| && n <= most
  {
    if t == "" || most == 0 || IsBlank(t[0]) then 0 else 1 + NameLength(t[1..], most - 1)
  }

  /** The loop that copies a part of the URL: it gives up once the part exceeds its limit. */
  datatype Part = Part(fits: bool, word: string, after: string)

  function TakePart(t: string, limit: nat): Part {
    var n := Skip(t, Token);
    if n > limit then Part(false, t[..limit], "") else Part(true, t[..n], t[n..])
  }

  /** A part that another part must follow: at least one slash, and all further ones skipped. */
  function TakePartSlash(t: string, limit: nat): Part {
    var p := TakePart(t, limit);
    if p.fits && Hd(p.after, 0) == '/' then Part(true, p.word, Rest(p.after, Slash)) else Part(false, p.word, "")
  }

  datatype Target = Target(ok: bool, host: string, presentation: string, stream: string, rest: string)

  function ParseVersion(t: string): Option<string> {
    var u := Rest(t, Space);
    if "RTSP/" <= u && IsDigit(Hd(u, 5)) && Hd(u, 6) == '.' && IsDigit(Hd(u, 7)) then Some(Drop(u, 8)) else None
  }

  function Drop(t: string, n: nat): string {
    if n <= |t| then t[n..] else ""
  }

  /** The last part of the URL, the slashes some clients put after it, and the version. */
  function ParseStream(t: string): (bool, string, string) {
    var stream := TakePart(t, RTSP_PARAM_STRING_MAX);
    var tail := Rest(stream.after, Slash);
    if !stream.fits || !IsBlank(Hd(tail, 0)) then (false, stream.word, "") else
    match ParseVersion(tail)
    case None => (false, stream.word, "")
    case Some(rest) => (true, stream.word, rest)
  }

  /** Host, presentation and stream, up to and including the version. */
  function ParseTarget(t: string): Target {
    var u := Rest(t[NameLength(t, 19)..], Space);
    if !StartsNoCase(u, "rtsp://") then Target(false, "", "", "", "") else
    var host := TakePartSlash(u[7..], MAX_HOSTNAME_LEN);
    if !host.fits then Target(false, host.word, "", "", "") else
    var pres := TakePartSlash(host.after, RTSP_PARAM_STRING_MAX);
    if !pres.fits then Target(false, host.word, pres.word, "", "") else
    var (ok, stream, rest) := ParseStream(pres.after);
    Target(ok, host.word, pres.word, stream, rest)
  }

  // ----- header lines

  /** The loop to the end of a line. */
  function LineEnd(t: string): (n: nat)
    ensures n <= |t|
  {
    if Ended(t) || t[0] == '\r' || Hd(t, 1) == '\n' then 0 else 1 + LineEnd(t[1..])
  }

  /** parse_numeric_header: the number and what follows it; `count` bounds the characters it may look at, and is
      negative when the request arrived in several reads. */
  function SkipBlanks(t: string, count: int): (n: nat)
    ensures n <= |t| && (n > 0 ==> n <= count)
  {
    if t != "" && count > 0 && IsBlank(t[0]) then 1 + SkipBlanks(t[1..], count - 1) else 0
  }

  function SkipDigits(t: string, count: int): (n: nat)
    ensures n <= |t| && (n > 0 ==> n <= count)
    ensures forall i :: 0 <= i < n ==> IsDigit(t[i])
  {
    if t != "" && count > 0 && IsDigit(t[0]) then 1 + SkipDigits(t[1..], count - 1) else 0
  }

  datatype Number = Number(value: nat, rest: string)

  function Numeric(t: string, count: int): (r: Option<Number>)
    ensures r.Some? ==> |r.value.rest| <= |t|
  {
    var k := SkipBlanks(t, count);
    var u, left := t[k..], count - k;
    if !IsDigit(Hd(u, 0)) || left == 0 then None
    else
      var d := SkipDigits(u, left);
      if left - d == 0 then None else Some(Number(Value(u[..d]), u[d..]))
  }

  lemma NumericIs(t: string, count: int, k: nat, d: nat)
    requires k == SkipBlanks(t, count) && IsDigit(Hd(t, k)) && count - k != 0
    requires d == SkipDigits(t[k..], count - k)
    ensures k + d <= |t|
    ensures Numeric(t, count) == if count - k - d == 0 then None else Some(Number(Value(t[k..k + d]), t[k + d..]))
  {
    hide SkipBlanks, SkipDigits, Value, IsDigit;
    assert t[k..][..d] == t[k..k + d] && t[k..][d..] == t[k + d..];
  }

  /** Continuation lines are glued to the line they continue: CR LF before a blank become two spaces. */
  function Glue(t: string): (g: string)
    ensures |g| == |t|
  {
    if Ended(t) then t
    else if t[0] == '\r' && Hd(t, 1) == '\n' then
      if IsBlank(Hd(t, 2)) then "  " + Glue(t[2..]) else t
    else [t[0]] + Glue(t[1..])
  }

  /** What a request leaves in the session. */
  datatype Fields = Fields(host: string, presentation: string, stream: string, cseq: nat, contentLength: nat,
                           tcp: bool, rtpPort: nat, rtcpPort: nat)

  /** Stuck stands for the loop over Transport parameters that a CR without LF never leaves. */
  datatype Verdict = Accepted | Rejected | Stuck

  /** What came of a Transport line, and the text after it. */
  datatype Fetched = Fetched(verdict: Verdict, fields: Fields, rest: string)

  /** Index of the first ';' or CR before the text ends, as strpbrk finds it; the length if there is none. */
  function NextPart(t: string): (n: nat)
    ensures n <= |t|
    ensures n < |t| ==> t[n] == ';' || t[n] == '\r'
    ensures n < |t| ==> forall i :: 0 <= i < n ==> t[i] != ';' && t[i] != '\r'
  {
    if Ended(t) then |t| else if t[0] == ';' || t[0] == '\r' then 0 else 1 + NextPart(t[1..])
  }

  /** The part of a Transport line after the protocol: only client_port is looked at. */
  function Params(f: Fields, t: string): (r: Fetched)
    ensures |r.rest| <= |t|
    decreases |t|
  {
    var u := Rest(t, Separator);
    if Ended(u) then Fetched(Rejected, f, "")
    else if "\r\n" <= u then Fetched(Accepted, f, u)
    else
      var n := NextPart(u);
      if n == |u| then Fetched(Rejected, f, "")
      else if "client_port=" <= u && Skip(u[12..], Digit) == 0 then Fetched(Rejected, f, "")
      else
        var g :=
          if "client_port=" <= u then f.(rtpPort := PortOf(u[12..]), rtcpPort := (PortOf(u[12..]) + 1) % 0x1_0000)
          else f;
        if n == 0 then Fetched(Stuck, g, "") else Params(g, u[n..])
  }

  /** One turn of that loop. */
  lemma ParamsTurn(f: Fields, t: string, u: string)
    requires u == Rest(t, Separator)
    ensures Ended(u) ==> Params(f, t) == Fetched(Rejected, f, "")
    ensures !Ended(u) && "\r\n" <= u ==> Params(f, t) == Fetched(Accepted, f, u)
    ensures !Ended(u) && !("\r\n" <= u) ==>
      var n := NextPart(u);
      if n == |u| then Params(f, t) == Fetched(Rejected, f, "")
      else if "client_port=" <= u then
        Params(f, t) == if Skip(u[12..], Digit) == 0 then Fetched(Rejected, f, "") else
          var g := f.(rtpPort := PortOf(u[12..]), rtcpPort := (PortOf(u[12..]) + 1) % 0x1_0000);
          if n == 0 then Fetched(Stuck, g, "") else Params(g, u[n..])
      else Params(f, t) == if n == 0 then Fetched(Stuck, f, "") else Params(f, u[n..])
  {
    hide Skip, NextPart, PortOf, Rest;
  }

  /** An IPPORT from the digits at the front. */
  function PortOf(t: string): nat {
    Value(t[..Skip(t, Digit)]) % 0x1_0000
  }

  /** A Transport line after its name. */
  function ParseTransport(f: Fields, t: string): (r: Fetched)
    ensures |r.rest| <= |t|
  {
    var u := Rest(t, Space);
    if !("RTP/AVP" <= u) then Fetched(Rejected, f, "")
    else
      var tcp := "/TCP" <= u[7..];
      Params(f.(tcp := tcp, rtpPort := 0), if tcp then u[11..] else u[7..])
  }

  datatype LineResult = Stop(verdict: Verdict, end: Fields) | More(fields: Fields, rest: string)

  /** One header line, from the end of the line before it on. `slack` is the request size the parser was told
      minus the true one: 0 for a request read in one go. */
  function OneLine(f: Fields, setup: bool, t: string, slack: int): (r: LineResult)
    ensures r.More? ==> |r.rest| < |t|
  {
    var line := t[LineEnd(t)..];
    if Ended(line) then Stop(Rejected, f)
    else
      var u := Drop(line, 2);
      if Ended(u) then Stop(Accepted, f) else HeaderLine(f, setup, u, slack)
  }

  function HeaderLine(f: Fields, setup: bool, u: string, slack: int): (r: LineResult)
    ensures r.More? ==> |r.rest| <= |u|
  {
    if "CSeq:" <= u then
      match Numeric(u[5..], |u| + slack - 5)
      case None => Stop(Rejected, f)
      case Some(n) => More(f.(cseq := n.value), n.rest)
    else if "Content-Length:" <= u then
      match Numeric(u[15..], |u| + slack - 15)
      case None => Stop(Rejected, f)
      case Some(n) => More(f.(contentLength := n.value), n.rest)
    else
      var g := Glue(u);
      if setup && "Transport:" <= g then
        var r := ParseTransport(f, g[10..]);
        if r.verdict.Accepted? then More(r.fields, Rest(r.rest, LineText)) else Stop(r.verdict, r.fields)
      else
        More(f, Rest(g, LineText))
  }

  /** The loop over header lines. */
  function Headers(f: Fields, setup: bool, t: string, slack: int): (Verdict, Fields)
    decreases |t|
  {
    match OneLine(f, setup, t, slack)
    case Stop(verdict, end) => (verdict, end)
    case More(g, rest) => Headers(g, setup, rest, slack)
  }

  function Parse(f: Fields, setup: bool, t: string, slack: int): (Verdict, Fields) {
    var target := ParseTarget(t);
    var g := f.(host := target.host, presentation := target.presentation, stream := target.stream, contentLength := 0);
    if target.ok then Headers(g, setup, target.rest, slack) else (Rejected, g)
  }
}
