/** The request line as the parser of src/CRtspSession.cpp takes it: a text is taken if and only if it has this shape.
    */
module RtspUrl {
  import opened RtspParser
  import opened Sequences
  import opened Wrappers

  /** What follows the name of the command. */
  datatype Url = Url(before: string, scheme: string, host: string, gap1: string, presentation: string, gap2: string,
                     stream: string, gap3: string, after: string, major: char, minor: char)

  predicate White(c: char) {
    c == ' ' || c == '\t' || c == '\n' || c == 11 as char || c == 12 as char || c == '\r'
  }

  predicate SpaceOrTab(c: char) {
    c == ' ' || c == '\t'
  }

  predicate Whites(s: string) {
    forall c <- s :: White(c)
  }

  predicate Slashes(s: string) {
    forall c <- s :: c == '/'
  }

  predicate Word(w: string) {
    forall c <- w :: c != '\0' && !White(c) && c != '/'
  }

  /** The name, with nothing but white space up to the URL; a name of 19 characters needs none. */
  predicate NameShape(name: string, before: string) {
    && |name| <= 19 && (forall c <- name :: !SpaceOrTab(c))
    && Whites(before) && (|name| < 19 ==> before != "" && SpaceOrTab(before[0]))
  }

  predicate SchemeShape(scheme: string) {
    |scheme| == 7 && forall i :: 0 <= i < 7 ==> scheme[i] == "rtsp://"[i] || scheme[i] == "RTSP://"[i]
  }

  predicate PathShape(u: Url) {
    && Word(u.host) && |u.host| <= 56 && Slashes(u.gap1) && u.gap1 != ""
    && Word(u.presentation) && 0 < |u.presentation| <= 50 && Slashes(u.gap2) && u.gap2 != ""
    && StreamShape(u)
  }

  predicate StreamShape(u: Url) {
    && Word(u.stream) && |u.stream| <= 50 && Slashes(u.gap3) && (u.stream == "" ==> u.gap3 == "")
    && Whites(u.after) && u.after != "" && SpaceOrTab(u.after[0])
    && '0' <= u.major <= '9' && '0' <= u.minor <= '9'
  }

  predicate UrlShape(name: string, u: Url) {
    NameShape(name, u.before) && SchemeShape(u.scheme) && PathShape(u)
  }

  /** The version, with what follows it. */
  function VersionText(u: Url, w: string): string {
    "RTSP/" + [u.major, '.', u.minor] + w
  }

  function StreamText(u: Url, w: string): string {
    u.stream + (u.gap3 + (u.after + VersionText(u, w)))
  }

  function PathText(u: Url, w: string): string {
    u.host + (u.gap1 + (u.presentation + (u.gap2 + StreamText(u, w))))
  }

  function UrlText(u: Url, w: string): string {
    u.before + (u.scheme + PathText(u, w))
  }

  /** As clients write it. */
  function CommonUrl(host: string, presentation: string, stream: string): Url {
    Url(" ", "rtsp://", host, "/", presentation, "/", stream, "", " ", '1', '0')
  }

  // ----- the loops over a class of characters

  lemma {:induction false} SkipOver(x: string, y: string, cls: Class)
    requires (forall c <- x :: In(c, cls)) && (y != "" ==> !In(y[0], cls))
    ensures Skip(x + y, cls) == |x| && Rest(x + y, cls) == y
  {
    hide In;
    var t := x + y;
    forall i | 0 <= i < |x| ensures In(t[i], cls) { assert t[i] == x[i] && x[i] in x; }
    SkipIs(t, cls, |x|);
    assert t[|x|..] == y;
  }

  /** What was skipped, and what is left. */
  lemma SkippedSplits(t: string, cls: Class) returns (x: string)
    ensures t == x + Rest(t, cls) && (forall c <- x :: In(c, cls)) && |x| == Skip(t, cls)
    ensures Rest(t, cls) != "" ==> !In(Rest(t, cls)[0], cls)
  {
    hide In;
    x := t[..Skip(t, cls)];
    forall c <- x ensures In(c, cls) {
      var i :| 0 <= i < |x| && x[i] == c;
      assert t[i] == c;
    }
  }

  // ----- a part of the URL

  lemma PartRead(word: string, y: string, limit: nat)
    requires Word(word) && |word| <= limit && y != "" && !In(y[0], Token)
    ensures TakePart(word + y, limit) == Part(true, word, y)
  {
    SkipOver(word, y, Token);
    assert (word + y)[..|word|] == word && (word + y)[|word|..] == y;
  }

  lemma PartSound(t: string, limit: nat)
    requires TakePart(t, limit).fits
    ensures var p := TakePart(t, limit);
      && t == p.word + p.after && Word(p.word) && |p.word| <= limit && (p.after != "" ==> !In(p.after[0], Token))
  {
    var x := SkippedSplits(t, Token);
    assert TakePart(t, limit).word == x;
  }

  lemma PartSlashRead(word: string, gap: string, y: string, limit: nat)
    requires Word(word) && |word| <= limit && Slashes(gap) && gap != "" && (y != "" ==> y[0] != '/')
    ensures TakePartSlash(word + (gap + y), limit) == Part(true, word, y)
  {
    assert gap[0] in gap && (gap + y)[0] == '/';
    PartRead(word, gap + y, limit);
    SkipOver(gap, y, Slash);
    hide TakePart, Skip, Rest, Word;
  }

  lemma PartSlashSound(t: string, limit: nat) returns (gap: string)
    requires TakePartSlash(t, limit).fits
    ensures var p := TakePartSlash(t, limit);
      && t == p.word + (gap + p.after) && Word(p.word) && |p.word| <= limit
      && Slashes(gap) && gap != "" && (p.after != "" ==> p.after[0] != '/')
      && (t != "" && t[0] != '/' ==> p.word != "")
  {
    PartSound(t, limit);
    hide TakePart, Word;
    var p := TakePart(t, limit);
    gap := SkippedSplits(p.after, Slash);
    assert In('/', Slash);
  }

  // ----- the stream and the version

  lemma VersionRead(u: Url, w: string)
    requires StreamShape(u)
    ensures ParseVersion(u.after + VersionText(u, w)) == Some(w)
  {
    var v := VersionText(u, w);
    assert v[0] == 'R' && v[5] == u.major && v[6] == '.' && v[7] == u.minor && v[..5] == "RTSP/" && v[8..] == w;
    SkipOver(u.after, v, Space);
    hide Rest, Skip, Whites, Word, Slashes;
    assert "RTSP/" <= v;
    assert Drop(v, 8) == w;
  }

  lemma VersionSound(t: string) returns (after: string, major: char, minor: char, w: string)
    requires ParseVersion(t).Some?
    ensures Whites(after) && '0' <= major <= '9' && '0' <= minor <= '9' && ParseVersion(t) == Some(w)
    ensures t == after + ("RTSP/" + [major, '.', minor] + w)
  {
    after := SkippedSplits(t, Space);
    var u := Rest(t, Space);
    hide Rest, Skip;
    major, minor, w := u[5], u[7], u[8..];
    assert u[..5] == "RTSP/";
    assert u == u[..5] + [u[5], u[6], u[7]] + u[8..];
  }

  lemma StreamRead(u: Url, w: string)
    requires StreamShape(u)
    ensures ParseStream(StreamText(u, w)) == (true, u.stream, w)
  {
    var tail := u.after + VersionText(u, w);
    assert tail[0] == u.after[0];
    assert u.gap3 + tail != "" && !In((u.gap3 + tail)[0], Token) by {
      if u.gap3 != "" { assert u.gap3[0] in u.gap3; }
    }
    PartRead(u.stream, u.gap3 + tail, 50);
    SkipOver(u.gap3, tail, Slash);
    VersionRead(u, w);
    hide TakePart, Rest, ParseVersion;
  }

  lemma StreamSound(t: string) returns (u: Url, w: string)
    requires ParseStream(t).0 && (t != "" ==> t[0] != '/')
    ensures StreamShape(u) && t == StreamText(u, w) && ParseStream(t) == (true, u.stream, w)
  {
    hide TakePart, Word, White, SpaceOrTab, Slashes, ParseVersion, Rest, StreamShape, StreamText, VersionText, Skip;
    PartSound(t, RTSP_PARAM_STRING_MAX);
    var part := TakePart(t, RTSP_PARAM_STRING_MAX);
    var gap := SkippedSplits(part.after, Slash);
    var after, major, minor, rest := VersionSound(Rest(part.after, Slash));
    u, w := Url("", "", "", "", "", "", part.word, gap, after, major, minor), rest;
    StreamMade(t, u, w);
  }

  lemma StreamMade(t: string, u: Url, w: string)
    requires t == u.stream + (u.gap3 + (u.after + ("RTSP/" + [u.major, '.', u.minor] + w)))
    requires (t != "" ==> t[0] != '/') && Word(u.stream) && |u.stream| <= 50
    requires (forall c <- u.gap3 :: In(c, Slash)) && Whites(u.after)
    requires IsBlank(Hd(u.after + ("RTSP/" + [u.major, '.', u.minor] + w), 0))
    requires '0' <= u.major <= '9' && '0' <= u.minor <= '9'
    ensures StreamShape(u) && t == StreamText(u, w)
  {
    var v := VersionText(u, w);
    assert v[0] == 'R';
    FirstOf(u.after, v);
    FirstOf(u.gap3, u.after + v);
    FirstOf(u.stream, u.gap3 + (u.after + v));
    hide Word, Whites;
  }

  lemma FirstOf(a: string, b: string)
    ensures a == "" ==> a + b == b
    ensures a != "" ==> (a + b)[0] == a[0] && a[0] in a
  {
  }

  // ----- the name

  lemma {:induction false} NameOver(name: string, y: string, most: nat)
    requires |name| <= most && (forall c <- name :: !SpaceOrTab(c)) && (|name| < most ==> y != "" && SpaceOrTab(y[0]))
    ensures NameLength(name + y, most) == |name|
  {
    if name == "" {
      assert name + y == y;
    } else {
      assert name[0] in name && forall c <- name[1..] :: c in name;
      NameOver(name[1..], y, most - 1);
      HeadTail(name, y);
    }
  }

  lemma {:induction false} NameStops(t: string, most: nat)
    ensures var n := NameLength(t, most);
      && (forall i :: 0 <= i < n ==> !SpaceOrTab(t[i])) && (n < most && n < |t| ==> SpaceOrTab(t[n]))
  {
    if t != "" && most > 0 && !IsBlank(t[0]) {
      NameStops(t[1..], most - 1);
      assert forall i :: 0 < i < |t| ==> t[i] == t[1..][i - 1];
    }
  }

  lemma NameRead(name: string, before: string, y: string)
    requires NameShape(name, before) && y != "" && !White(y[0])
    ensures var t := name + (before + y); NameLength(t, 19) == |name| && Rest(t[|name|..], Space) == y
  {
    hide NameLength, Skip, Rest;
    NameOver(name, before + y, 19);
    assert (name + (before + y))[|name|..] == before + y;
    SkipOver(before, y, Space);
  }

  lemma NameSound(t: string) returns (name: string, before: string)
    ensures var y := Rest(t[NameLength(t, 19)..], Space);
      y != "" ==> NameShape(name, before) && t == name + (before + y) && !White(y[0])
  {
    NameStops(t, 19);
    var n := NameLength(t, 19);
    name := t[..n];
    before := SkippedSplits(t[n..], Space);
    var y := Rest(t[n..], Space);
    hide NameLength, Rest, Skip;
    if y != "" { NameSplit(t, n, before, y); }
  }

  lemma NameSplit(t: string, n: nat, before: string, y: string)
    requires n <= 19 && n <= |t| && t[n..] == before + y && y != "" && !In(y[0], Space)
    requires (forall i :: 0 <= i < n ==> !SpaceOrTab(t[i])) && (n < 19 && n < |t| ==> SpaceOrTab(t[n]))
    requires forall c <- before :: In(c, Space)
    ensures NameShape(t[..n], before) && t == t[..n] + (before + y) && !White(y[0])
  {
    FirstOf(before, y);
    assert (before + y)[0] == t[n];
    forall c <- t[..n] ensures !SpaceOrTab(c) {
      var i :| 0 <= i < n && t[..n][i] == c;
      assert t[i] == c;
    }
  }

  // ----- the whole line

  lemma SchemeRead(scheme: string, a: string)
    requires SchemeShape(scheme)
    ensures var v := scheme + a; StartsNoCase(v, "rtsp://") && v[7..] == a && v != "" && !White(v[0])
  {
    var v := scheme + a;
    assert forall i :: 0 <= i < 7 ==> v[i] == scheme[i];
    assert Lower('R') == 'r' && Lower('T') == 't' && Lower('S') == 's' && Lower('P') == 'p';
  }

  lemma SchemeSound(v: string)
    requires StartsNoCase(v, "rtsp://")
    ensures |v| >= 7 && SchemeShape(v[..7]) && v == v[..7] + v[7..]
  {
    forall i | 0 <= i < 7 ensures v[i] == "rtsp://"[i] || v[i] == "RTSP://"[i] {
      assert Lower(v[i]) == "rtsp://"[i];
    }
  }

  /** The host, and then what follows a URL's first word: never a slash. */
  lemma PathFirst(u: Url, w: string)
    requires PathShape(u)
    ensures var c := StreamText(u, w); c != "" && c[0] != '/'
    ensures u.presentation[0] != '/'
  {
    assert u.presentation[0] in u.presentation;
    if u.stream != "" { assert u.stream[0] in u.stream; }
  }

  lemma TargetRead(name: string, u: Url, w: string)
    requires UrlShape(name, u)
    ensures ParseTarget(name + UrlText(u, w)) == Target(true, u.host, u.presentation, u.stream, w)
  {
    var c := StreamText(u, w);
    var b := u.presentation + (u.gap2 + c);
    var a := PathText(u, w);
    PathFirst(u, w);
    hide NameLength, Rest, TakePartSlash, ParseStream, StartsNoCase, Word, Whites, Slashes, StreamText;
    hide StreamShape, NameShape, SchemeShape, White;
    SchemeRead(u.scheme, a);
    NameRead(name, u.before, u.scheme + a);
    PartSlashRead(u.host, u.gap1, b, 56);
    PartSlashRead(u.presentation, u.gap2, c, 50);
    StreamRead(u, w);
  }

  lemma PathSound(t: string) returns (u: Url, w: string)
    requires TakePartSlash(t, 56).fits && TakePartSlash(TakePartSlash(t, 56).after, 50).fits
    requires ParseStream(TakePartSlash(TakePartSlash(t, 56).after, 50).after).0
    ensures PathShape(u) && t == PathText(u, w)
    ensures var host := TakePartSlash(t, 56); var pres := TakePartSlash(host.after, 50);
      && host.word == u.host && pres.word == u.presentation && ParseStream(pres.after) == (true, u.stream, w)
  {
    hide TakePartSlash, ParseStream, Word, Slashes, Whites;
    var host := TakePartSlash(t, 56);
    var gap1 := PartSlashSound(t, 56);
    var pres := TakePartSlash(host.after, 50);
    var gap2 := PartSlashSound(host.after, 50);
    assert |host.after| >= |gap2|;
    var v;
    v, w := StreamSound(pres.after);
    u := v.(host := host.word, gap1 := gap1, presentation := pres.word, gap2 := gap2);
    assert StreamText(u, w) == StreamText(v, w) && StreamShape(u);
    hide StreamText, StreamShape;
  }

  lemma TargetSound(t: string) returns (name: string, u: Url, w: string)
    requires ParseTarget(t).ok
    ensures UrlShape(name, u) && t == name + UrlText(u, w)
    ensures ParseTarget(t) == Target(true, u.host, u.presentation, u.stream, w)
  {
    hide TakePartSlash, ParseStream, NameLength, Rest, StartsNoCase, PathText, PathShape, SchemeShape, NameShape, White;
    var before;
    name, before := NameSound(t);
    var v := Rest(t[NameLength(t, 19)..], Space);
    SchemeSound(v);
    assert v != "";
    u, w := PathSound(v[7..]);
    SamePath(u, before, v[..7], w);
    u := u.(before := before, scheme := v[..7]);
  }

  lemma SamePath(u: Url, before: string, scheme: string, w: string)
    ensures var v := u.(before := before, scheme := scheme);
      PathText(v, w) == PathText(u, w) && PathShape(v) == PathShape(u)
  {
  }

  /** The request line is in order if and only if it has this shape; what is taken from it then are its parts. */
  lemma TargetExact(t: string)
    ensures ParseTarget(t).ok <==> exists name, u, w :: UrlShape(name, u) && t == name + UrlText(u, w)
    ensures forall name, u, w :: UrlShape(name, u) && t == name + UrlText(u, w) ==>
      ParseTarget(t) == Target(true, u.host, u.presentation, u.stream, w)
  {
    hide ParseTarget, UrlShape, UrlText;
    forall name, u, w | UrlShape(name, u) && t == name + UrlText(u, w)
      ensures ParseTarget(t) == Target(true, u.host, u.presentation, u.stream, w)
    {
      TargetRead(name, u, w);
    }
    if ParseTarget(t).ok {
      var name, u, w := TargetSound(t);
    }
  }
}
