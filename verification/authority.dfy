/** auth.go: moving URLs between the public and the backchannel authority, and back. */
module Authority {
  import opened Wrappers

  /** A decoded path holds bytes; one char stands for one byte. */
  type Bytes = s: string | forall c <- s :: c as int < 256

  datatype Url = Url(
    scheme: string, host: string, user: Option<string>, path: Bytes, rawPath: string, query: string, fragment: string)

  // ---- percent-encoding, as net/url does it ------------------------------------------------

  function HexValue(c: char): (value: Option<nat>)
    ensures value.Some? ==> value.value < 16
  {
    if '0' <= c <= '9' then Some(c as int - '0' as int)
    else if 'a' <= c <= 'f' then Some(c as int - 'a' as int + 10)
    else if 'A' <= c <= 'F' then Some(c as int - 'A' as int + 10)
    else None
  }

  function HexDigit(n: nat): char
    requires n < 16
  {
    "0123456789ABCDEF"[n]
  }

  /** PathUnescape: fails on a percent sign without two hexadecimal digits. */
  function Unescape(s: string): Option<Bytes> {
    if s == "" then Some("")
    else if s[0] == '%' then
      if |s| < 3 || HexValue(s[1]).None? || HexValue(s[2]).None? then None
      else Prepend(Octet(HexValue(s[1]).value, HexValue(s[2]).value), Unescape(s[3..]))
    else if s[0] as int >= 256 then None
    else Prepend(s[0], Unescape(s[1..]))
  }

  function Prepend(c: char, rest: Option<Bytes>): Option<Bytes>
    requires c as int < 256
  {
    if rest.None? then None else Some([c] + rest.value)
  }

  function Octet(high: nat, low: nat): (c: char)
    requires high < 16 && low < 16
    ensures c as int == high * 16 + low
  {
    (high * 16 + low) as char
  }

  predicate Unreserved(c: char) {
    'a' <= c <= 'z' || 'A' <= c <= 'Z' || '0' <= c <= '9' || c in "-_.~$&+,/:;=@"
  }

  function Escape(s: Bytes): string {
    if s == "" then ""
    else (if Unreserved(s[0]) then [s[0]] else EscapedByte(s[0])) + Escape(s[1..])
  }

  function EscapedByte(c: char): string
    requires c as int < 256
  {
    ['%', HexDigit(c as int / 16), HexDigit(c as int % 16)]
  }

  /** validEncoded: what may appear in an escaped path. */
  predicate MayAppear(c: char) {
    Unreserved(c) || c in "!'()*[]%"
  }

  predicate AllMayAppear(s: string) {
    forall c <- s :: MayAppear(c)
  }

  /** URL.EscapedPath: the raw path where it is a valid encoding of the path. */
  function EscapedPath(u: Url): string {
    if u.rawPath != "" && AllMayAppear(u.rawPath) && Unescape(u.rawPath) == Some(u.path) then u.rawPath
    else if u.path == "*" then "*"
    else Escape(u.path)
  }

  ghost predicate WellEscaped(s: string) {
    AllMayAppear(s) && Unescape(s).Some?
  }

  ghost function Both(a: Option<Bytes>, b: Option<Bytes>): Option<Bytes> {
    if a.None? || b.None? then None else Some(a.value + b.value)
  }

  lemma PrependBoth(c: char, a: Option<Bytes>, b: Option<Bytes>)
    requires c as int < 256
    ensures Both(Prepend(c, a), b) == Prepend(c, Both(a, b))
  {
    if a.Some? && b.Some? {
      assert [c] + (a.value + b.value) == [c] + a.value + b.value;
    }
  }

  predicate StartsWithEscape(s: string) {
    |s| >= 3 && s[0] == '%' && HexValue(s[1]).Some? && HexValue(s[2]).Some?
  }

  /** The byte a string starts with, and how many characters write it. */
  function FirstByte(s: string): (char, nat)
    requires s != ""
    ensures FirstByte(s).0 as int < 256
  {
    if StartsWithEscape(s) then (Octet(HexValue(s[1]).value, HexValue(s[2]).value), 3)
    else if s[0] as int < 256 then (s[0], 1)
    else ('\0', 1)
  }

  /** A string that unescapes is its first byte and the rest. */
  lemma UnescapeSteps(s: string)
    requires s != "" && Unescape(s).Some?
    ensures var (c, n) := FirstByte(s);
            && n <= |s| && 0 < n && Unescape(s[n..]).Some?
            && (s[0] == '%' ==> StartsWithEscape(s)) && s[0] as int < 256
  {
  }

  lemma UnescapeFirst(s: string)
    requires s != "" && (s[0] == '%' ==> StartsWithEscape(s)) && s[0] as int < 256
    ensures var (c, n) := FirstByte(s); n <= |s| && Unescape(s) == Prepend(c, Unescape(s[n..]))
  {
    hide Prepend;
  }

  /** Appending to a string leaves its first byte alone. */
  lemma FirstByteStays(a: string, b: string)
    requires a != "" && (a[0] == '%' ==> StartsWithEscape(a)) && a[0] as int < 256
    ensures FirstByte(a + b) == FirstByte(a) && FirstByte(a).1 <= |a|
    ensures a + b != "" && (a + b)[0] == a[0] && (a[0] == '%' ==> StartsWithEscape(a + b))
    ensures (a + b)[FirstByte(a).1..] == a[FirstByte(a).1..] + b
  {
    hide HexValue, Octet;
    var whole := a + b;
    assert whole[0] == a[0] && (|a| >= 3 ==> whole[1] == a[1] && whole[2] == a[2]);
  }

  lemma {:induction false} UnescapeConcat(a: string, b: string)
    requires Unescape(a).Some?
    ensures Unescape(a + b) == Both(Unescape(a), Unescape(b))
    decreases |a|
  {
    hide Unescape, Prepend, Both, FirstByte, StartsWithEscape;
    if a == "" {
      assert a + b == b;
      EmptyUnescapes();
      UnescapeNothing(Unescape(b));
    } else {
      UnescapeSteps(a);
      UnescapeFirst(a);
      FirstByteStays(a, b);
      UnescapeFirst(a + b);
      var (c, n) := FirstByte(a);
      UnescapeConcat(a[n..], b);
      PrependBoth(c, Unescape(a[n..]), Unescape(b));
    }
  }

  lemma EmptyUnescapes()
    ensures Unescape("") == Some("")
  {
  }

  lemma UnescapeNothing(b: Option<Bytes>)
    ensures Both(Some(""), b) == b
  {
    if b.Some? {
      assert "" + b.value == b.value;
    }
  }

  lemma {:induction false} UnescapeBeforeSlash(a: string)
    requires Unescape(a + "/").Some?
    ensures Unescape(a).Some?
  {
    if a != "" {
      var n := if a[0] == '%' then 3 else 1;
      assert (a + "/")[|a|] == '/';
      if a[0] == '%' {
        assert |a| >= 3 && (a + "/")[1] == a[1] && (a + "/")[2] == a[2];
      }
      assert (a + "/")[n..] == a[n..] + "/";
      UnescapeBeforeSlash(a[n..]);
    }
  }

  lemma {:induction false} EscapeRoundTrip(s: Bytes)
    ensures AllMayAppear(Escape(s)) && Unescape(Escape(s)) == Some(s)
  {
    if s != "" {
      EscapeRoundTrip(s[1..]);
      assert s == [s[0]] + s[1..];
      if !Unreserved(s[0]) {
        ByteRoundTrip(s[0]);
        UnescapeConcat(EscapedByte(s[0]), Escape(s[1..]));
      } else {
        var whole := Escape(s);
        assert whole[1..] == Escape(s[1..]) && whole[0] == s[0];
      }
    }
  }

  lemma ByteRoundTrip(c: char)
    requires c as int < 256
    ensures AllMayAppear(EscapedByte(c)) && Unescape(EscapedByte(c)) == Some([c])
  {
    hide HexValue, HexDigit, Unreserved;
    var high, low := c as int / 16, c as int % 16;
    HexRoundTrip(high);
    HexRoundTrip(low);
    var e := EscapedByte(c);
    assert e[3..] == "" && Unescape("") == Some("");
    OctetOf(c);
    assert [c] + "" == [c];
  }

  lemma OctetOf(c: char)
    requires c as int < 256
    ensures Octet(c as int / 16, c as int % 16) == c
  {
  }

  lemma HexRoundTrip(n: nat)
    requires n < 16
    ensures HexValue(HexDigit(n)) == Some(n) && Unreserved(HexDigit(n))
  {
  }

  /** An escaped path is a valid encoding of the path, whatever the raw path holds. */
  lemma EscapedPathEncodes(u: Url)
    ensures WellEscaped(EscapedPath(u)) && Unescape(EscapedPath(u)) == Some(u.path)
  {
    EscapeRoundTrip(u.path);
    assert "*"[1..] == "";
  }

  // ---- prefixes ----------------------------------------------------------------------------

  function TrimSlashes(s: string): string {
    if s != "" && s[|s| - 1] == '/' then TrimSlashes(s[..|s| - 1]) else s
  }

  lemma {:induction false} TrimKeepsEscapes(s: string)
    requires WellEscaped(s)
    ensures WellEscaped(TrimSlashes(s))
  {
    if s != "" && s[|s| - 1] == '/' {
      assert s == s[..|s| - 1] + "/";
      UnescapeBeforeSlash(s[..|s| - 1]);
      TrimKeepsEscapes(s[..|s| - 1]);
    }
  }

  predicate Absolute(s: string) {
    s != "" && s[0] == '/'
  }

  /** authorityPathSuffix. */
  function PathSuffix(path: string, prefix: string): Option<string> {
    var p := TrimSlashes(prefix);
    if p == "" then Some(path)
    else if path == p then Some("")
    else if p + ['/'] <= path then Some(path[|p|..])
    else None
  }

  /** joinAuthorityPath. */
  function JoinPath(prefix: string, suffix: string): string {
    var p := TrimSlashes(prefix);
    if p == "" then
      if suffix == "" then "" else if Absolute(suffix) then suffix else "/" + suffix
    else if suffix == "" then p
    else if Absolute(suffix) then p + suffix
    else p + "/" + suffix
  }

  /** strings.EqualFold on ASCII letters. */
  predicate EqualFold(a: string, b: string) {
    |a| == |b| && forall i :: 0 <= i < |a| ==> Lower(a[i]) == Lower(b[i])
  }

  function Lower(c: char): char {
    if 'A' <= c <= 'Z' then c - 'A' + 'a' else c
  }

  predicate SameAuthority(a: Url, b: Url) {
    EqualFold(a.scheme, b.scheme) && EqualFold(a.host, b.host)
  }

  /** rewriteAuthority: None when the endpoint is left as it is. */
  function Rewritten(u: Url, from: Url, to: Url): Option<Url> {
    var suffix := PathSuffix(EscapedPath(u), EscapedPath(from));
    if !SameAuthority(u, from) || suffix.None? then None
    else
      var raw := JoinPath(EscapedPath(to), suffix.value);
      var path := Unescape(raw);
      if path.None? then None
      else Some(u.(scheme := to.scheme, host := to.host, user := to.user, path := path.value, rawPath := raw))
  }

  // ---- what a prefix means -----------------------------------------------------------------

  /** The parts of a path between slashes. */
  function Segments(s: string): (parts: seq<string>)
    ensures parts != []
  {
    if s == "" then [""] else Push(Segments(s[..|s| - 1]), s[|s| - 1])
  }

  /** One more character: a slash opens a new part. */
  function Push(parts: seq<string>, c: char): (longer: seq<string>)
    requires parts != []
    ensures longer != []
  {
    if c == '/' then parts + [""] else parts[..|parts| - 1] + [parts[|parts| - 1] + [c]]
  }

  lemma SegmentsPush(s: string, c: char)
    ensures Segments(s + [c]) == Push(Segments(s), c)
  {
    assert (s + [c])[..|s|] == s;
  }

  lemma PushConcat(a: seq<string>, b: seq<string>, c: char)
    requires b != []
    ensures Push(a + b, c) == a + Push(b, c)
  {
    assert (a + b)[..|a + b| - 1] == a + b[..|b| - 1];
  }

  lemma {:induction false} SegmentsJoin(a: string, b: string)
    ensures Segments(a + ['/'] + b) == Segments(a) + Segments(b)
  {
    if b == "" {
      assert a + ['/'] + b == a + ['/'] && Segments(b) == [""];
      SegmentsPush(a, '/');
    } else {
      var front, c := b[..|b| - 1], b[|b| - 1];
      SegmentsJoin(a, front);
      assert a + ['/'] + b == a + ['/'] + front + [c] && b == front + [c];
      hide Push, Segments;
      SegmentsPush(a + ['/'] + front, c);
      SegmentsPush(front, c);
      PushConcat(Segments(a), Segments(front), c);
    }
  }

  lemma {:induction false} SegmentsRebuild(s: string)
    ensures Joined(Segments(s)) == s
  {
    hide Push;
    if s != "" {
      SegmentsRebuild(s[..|s| - 1]);
      JoinedLast(Segments(s[..|s| - 1]), s[|s| - 1]);
    }
  }

  /** The parts put together again. */
  ghost function Joined(parts: seq<string>): string
    requires parts != []
  {
    if |parts| == 1 then parts[0] else Joined(parts[..|parts| - 1]) + ['/'] + parts[|parts| - 1]
  }

  lemma JoinedLast(parts: seq<string>, c: char)
    requires parts != []
    ensures Joined(Push(parts, c)) == Joined(parts) + [c]
  {
    var longer := Push(parts, c);
    if c == '/' {
      assert longer[..|longer| - 1] == parts;
    } else {
      assert longer[..|longer| - 1] == parts[..|parts| - 1];
    }
  }

  lemma {:induction false} JoinedConcat(a: seq<string>, b: seq<string>)
    requires a != [] && b != []
    ensures Joined(a + b) == Joined(a) + ['/'] + Joined(b)
  {
    assert (a + b)[..|a + b| - 1] == a + b[..|b| - 1];
    if |b| == 1 {
      assert a + b[..0] == a;
    } else {
      JoinedConcat(a, b[..|b| - 1]);
    }
  }

  predicate UnderPrefix(path: string, p: string) {
    path == p || p + ['/'] <= path
  }

  /** Under a prefix, character by character, is the same as under it part by part. */
  lemma UnderMeansSegments(path: string, p: string)
    ensures UnderPrefix(path, p) <==> Segments(p) <= Segments(path)
  {
    hide Segments, Joined;
    if p + ['/'] <= path {
      var rest := path[|p| + 1..];
      assert path == p + ['/'] + rest;
      SegmentsJoin(p, rest);
    }
    if Segments(p) <= Segments(path) {
      var rest := Segments(path)[|Segments(p)|..];
      assert Segments(path) == Segments(p) + rest;
      SegmentsRebuild(p);
      SegmentsRebuild(path);
      if rest != [] {
        JoinedConcat(Segments(p), rest);
        assert path == p + ['/'] + Joined(rest);
      } else {
        assert Segments(path) == Segments(p);
      }
    }
  }

  /** A prefix matches whole segments only: merely shared leading characters never match. */
  lemma PrefixMeansSegments(path: string, prefix: string)
    ensures PathSuffix(path, prefix).Some? <==>
            TrimSlashes(prefix) == "" || Segments(TrimSlashes(prefix)) <= Segments(path)
    ensures PathSuffix(path, prefix).Some? && TrimSlashes(prefix) != "" ==>
              path == TrimSlashes(prefix) + PathSuffix(path, prefix).value
              && (PathSuffix(path, prefix).value != "" ==> Absolute(PathSuffix(path, prefix).value))
  {
    hide Segments, TrimSlashes;
    UnderMeansSegments(path, TrimSlashes(prefix));
  }

  // ---- rewriting ---------------------------------------------------------------------------

  /** Joining keeps the encoding valid, so decoding the joined path never fails. */
  lemma JoinedWellEscaped(path: string, from: string, to: string)
    requires WellEscaped(path) && WellEscaped(from) && WellEscaped(to) && PathSuffix(path, from).Some?
    ensures WellEscaped(JoinPath(to, PathSuffix(path, from).value))
  {
    hide Segments, TrimSlashes, WellEscaped, PathSuffix, JoinPath, Absolute;
    var suffix := PathSuffix(path, from).value;
    SuffixWellEscaped(path, from);
    SlashWellEscaped();
    WellEscapedConcat("/", suffix);
    TrimKeepsEscapes(to);
    WellEscapedConcat(TrimSlashes(to), suffix);
    WellEscapedConcat(TrimSlashes(to), "/" + suffix);
    JoinShapes(to, suffix);
  }

  /** What joining can yield. */
  lemma JoinShapes(prefix: string, suffix: string)
    ensures var t, joined := TrimSlashes(prefix), JoinPath(prefix, suffix);
            || joined == suffix || joined == "/" + suffix
            || joined == t || joined == t + suffix || joined == t + ("/" + suffix)
  {
    hide TrimSlashes, Absolute;
    var t := TrimSlashes(prefix);
    assert t + "/" + suffix == t + ("/" + suffix);
  }

  lemma SuffixWellEscaped(path: string, from: string)
    requires WellEscaped(path) && WellEscaped(from) && PathSuffix(path, from).Some?
    ensures WellEscaped(PathSuffix(path, from).value)
  {
    hide Segments, TrimSlashes, WellEscaped, Absolute;
    TrimKeepsEscapes(from);
    PrefixMeansSegments(path, from);
    if TrimSlashes(from) != "" {
      WellEscapedSuffix(TrimSlashes(from), PathSuffix(path, from).value);
    }
  }

  lemma SlashWellEscaped()
    ensures WellEscaped("/")
  {
    assert "/"[1..] == "";
  }

  lemma WellEscapedConcat(a: string, b: string)
    requires WellEscaped(a) && WellEscaped(b)
    ensures WellEscaped(a + b)
  {
    UnescapeConcat(a, b);
  }

  lemma WellEscapedSuffix(a: string, b: string)
    requires WellEscaped(a) && WellEscaped(a + b)
    ensures WellEscaped(b)
  {
    UnescapeConcat(a, b);
    assert forall c <- b :: c in a + b;
  }

  /**
   * A URL is rewritten exactly when it has the authority and its path lies under the prefix segment by
   * segment. The result has the new authority and the joined path; query and fragment stay.
   */
  lemma {:induction false} RewritesExactly(u: Url, from: Url, to: Url)
    ensures Rewritten(u, from, to).Some? <==>
              && SameAuthority(u, from)
              && (TrimSlashes(EscapedPath(from)) == "" || Segments(TrimSlashes(EscapedPath(from)))
                  <= Segments(EscapedPath(u)))
    ensures Rewritten(u, from, to).Some? ==>
              var v, suffix := Rewritten(u, from, to).value, PathSuffix(EscapedPath(u), EscapedPath(from));
              && (v.scheme, v.host, v.user, v.query, v.fragment) == (to.scheme, to.host, to.user, u.query, u.fragment)
              && suffix.Some? && EscapedPath(v) == JoinPath(EscapedPath(to), suffix.value)
  {
    hide EscapedPath, PathSuffix, JoinPath, TrimSlashes, Segments, EqualFold;
    EscapedPathEncodes(u);
    EscapedPathEncodes(from);
    EscapedPathEncodes(to);
    PrefixMeansSegments(EscapedPath(u), EscapedPath(from));
    var suffix := PathSuffix(EscapedPath(u), EscapedPath(from));
    if SameAuthority(u, from) && suffix.Some? {
      JoinedWellEscaped(EscapedPath(u), EscapedPath(from), EscapedPath(to));
      RawPathStands(Rewritten(u, from, to).value);
    }
  }

  /** A raw path that encodes the path is what EscapedPath returns. */
  lemma RawPathStands(v: Url)
    requires WellEscaped(v.rawPath) && Unescape(v.rawPath) == Some(v.path)
    ensures EscapedPath(v) == v.rawPath
  {
  }

  /** A suffix under an empty prefix starts with a slash once it is joined. */
  function Slashed(suffix: string): string {
    if suffix == "" || Absolute(suffix) then suffix else "/" + suffix
  }

  lemma JoinedIs(prefix: string, suffix: string)
    ensures JoinPath(prefix, suffix) == TrimSlashes(prefix) + Slashed(suffix)
  {
    hide TrimSlashes;
    var t := TrimSlashes(prefix);
    assert t + "/" + suffix == t + ("/" + suffix);
  }

  lemma SuffixOfJoined(prefix: string, slashed: string)
    requires slashed == "" || Absolute(slashed)
    ensures PathSuffix(TrimSlashes(prefix) + slashed, prefix) == Some(slashed)
  {
    hide TrimSlashes;
    var t := TrimSlashes(prefix);
    var there := t + slashed;
    assert there[|t|..] == slashed;
    if slashed != "" {
      assert there[..|t| + 1] == t + ['/'];
    }
  }

  /** On escaped paths: to the other prefix and back. */
  lemma PathThereAndBack(path: string, from: string, to: string)
    requires PathSuffix(path, from).Some?
    ensures var there := JoinPath(to, PathSuffix(path, from).value);
            && PathSuffix(there, to).Some?
            && JoinPath(from, PathSuffix(there, to).value) ==
               if TrimSlashes(from) == "" && path != "" && !Absolute(path) then "/" + path else path
  {
    hide TrimSlashes, Segments, JoinPath;
    var suffix := PathSuffix(path, from).value;
    JoinedIs(to, suffix);
    SuffixOfJoined(to, Slashed(suffix));
    JoinedIs(from, Slashed(suffix));
    PrefixMeansSegments(path, from);
    if TrimSlashes(from) == "" {
      assert TrimSlashes(from) + Slashed(path) == Slashed(path);
    }
  }

  /**
   * There and back for any URL value: rewriting back always succeeds. Scheme and host come back up to
   * letter case, query and fragment exactly, and the path exactly if and only if the original prefix is not
   * empty or the path is empty or absolute.
   */
  lemma {:induction false} RoundTripOfValues(u: Url, from: Url, to: Url)
    requires Rewritten(u, from, to).Some?
    ensures var back := Rewritten(Rewritten(u, from, to).value, to, from);
            && back.Some?
            && EqualFold(back.value.scheme, u.scheme) && EqualFold(back.value.host, u.host)
            && back.value.query == u.query && back.value.fragment == u.fragment && back.value.user == from.user
            && (EscapedPath(back.value) == EscapedPath(u) && back.value.path == u.path
                <==> TrimSlashes(EscapedPath(from)) != "" || EscapedPath(u) == "" || Absolute(EscapedPath(u)))
  {
    hide EscapedPath, PathSuffix, JoinPath, TrimSlashes, Segments, Unescape, Absolute, WellEscaped;
    var v := Rewritten(u, from, to).value;
    RewritesExactly(u, from, to);
    PathThereAndBack(EscapedPath(u), EscapedPath(from), EscapedPath(to));
    PrefixMeansSegments(EscapedPath(v), EscapedPath(to));
    RewritesExactly(v, to, from);
    var back := Rewritten(v, to, from).value;
    EscapedPathEncodes(u);
    EscapedPathEncodes(back);
    assert "/" + EscapedPath(u) != EscapedPath(u);
  }

  // ---- URLs as the service meets them ------------------------------------------------------

  /** What url.Parse yields: with a host, the path is empty or starts with a slash. */
  ghost predicate FromParse(u: Url) {
    u.host != "" ==> EscapedPath(u) == "" || Absolute(EscapedPath(u))
  }

  /** parseAuthority accepts only URLs with a host. */
  ghost predicate AcceptedAuthority(u: Url) {
    FromParse(u) && u.host != ""
  }

  lemma {:induction false} TrimmedIsPrefix(s: string)
    ensures TrimSlashes(s) <= s
  {
    if s != "" && s[|s| - 1] == '/' {
      TrimmedIsPrefix(s[..|s| - 1]);
    }
  }

  lemma JoinStaysAbsolute(prefix: string, suffix: string)
    requires prefix == "" || Absolute(prefix)
    ensures JoinPath(prefix, suffix) == "" || Absolute(JoinPath(prefix, suffix))
  {
    TrimmedIsPrefix(prefix);
  }

  /**
   * There and back for every parsed URL and every accepted pair of authorities: the path comes back exactly,
   * escaped and decoded, whatever the prefixes (empty, with trailing slashes, or nested); scheme and host up
   * to letter case; query and fragment exactly. In between it is again such a URL.
   */
  lemma {:induction false} RoundTrip(u: Url, from: Url, to: Url)
    requires FromParse(u) && AcceptedAuthority(from) && AcceptedAuthority(to) && Rewritten(u, from, to).Some?
    ensures var there := Rewritten(u, from, to).value;
            var back := Rewritten(there, to, from);
            && FromParse(there) && there.host != ""
            && back.Some?
            && EscapedPath(back.value) == EscapedPath(u) && back.value.path == u.path
            && EqualFold(back.value.scheme, u.scheme) && EqualFold(back.value.host, u.host)
            && back.value.query == u.query && back.value.fragment == u.fragment
  {
    hide EscapedPath, PathSuffix, JoinPath, TrimSlashes, Segments, Unescape, Absolute;
    assert SameAuthority(u, from) && u.host != "";
    RoundTripOfValues(u, from, to);
    RewritesExactly(u, from, to);
    JoinStaysAbsolute(EscapedPath(to), PathSuffix(EscapedPath(u), EscapedPath(from)).value);
  }

  // ---- what a rewrite does to a path -------------------------------------------------------

  ghost predicate AllSlashes(s: string) {
    forall i :: 0 <= i < |s| ==> s[i] == '/'
  }

  ghost predicate EndsInSlash(s: string) {
    s != "" && s[|s| - 1] == '/'
  }

  /** Trimming removes the slashes a prefix ends in, all of them and nothing else. */
  lemma {:induction false} TrimSlashesMeaning(p: string, slashes: string)
    requires !EndsInSlash(p) && AllSlashes(slashes)
    ensures TrimSlashes(p + slashes) == p
  {
    var s := p + slashes;
    if slashes == "" {
      assert s == p;
    } else {
      var front := slashes[..|slashes| - 1];
      assert s[..|s| - 1] == p + front && s[|s| - 1] == slashes[|slashes| - 1];
      TrimSlashesMeaning(p, front);
    }
  }

  /**
   * What moving an authority does: a path p + rest under the prefix p, written with any number of trailing
   * slashes, becomes q + rest under the new prefix q; everything but authority and path stays.
   */
  lemma {:induction false} RewriteMoves(
    u: Url, from: Url, to: Url, p: string, q: string, rest: string, slashes: string, slashes': string)
    requires SameAuthority(u, from) && !EndsInSlash(p) && !EndsInSlash(q) && AllSlashes(slashes) && AllSlashes(slashes')
    requires EscapedPath(from) == p + slashes && EscapedPath(to) == q + slashes'
    requires EscapedPath(u) == p + rest && (rest == "" || rest[0] == '/')
    ensures Rewritten(u, from, to).Some?
    ensures var v := Rewritten(u, from, to).value;
            && EscapedPath(v) == q + rest && (v.scheme, v.host, v.user) == (to.scheme, to.host, to.user)
            && v.query == u.query && v.fragment == u.fragment
  {
    hide EscapedPath, TrimSlashes, Segments, EqualFold, JoinPath;
    TrimSlashesMeaning(p, slashes);
    TrimSlashesMeaning(q, slashes');
    RewritesExactly(u, from, to);
    JoinedIs(EscapedPath(to), rest);
    PrefixMeansSegments(EscapedPath(u), EscapedPath(from));
    var path := p + rest;
    assert path[|p|..] == rest;
    if rest != "" && p != "" {
      assert path[..|p| + 1] == p + ['/'];
    }
    assert PathSuffix(path, EscapedPath(from)) == Some(rest);
  }

  /** Folding: the same length, and at each place the same character or the two cases of one ASCII letter. */
  lemma FoldMeaning(a: string, b: string)
    ensures EqualFold(a, b) <==>
              |a| == |b| && forall i :: 0 <= i < |a| ==>
                || a[i] == b[i]
                || ('A' <= a[i] <= 'Z' && b[i] as int == a[i] as int + 32)
                || ('A' <= b[i] <= 'Z' && a[i] as int == b[i] as int + 32)
  {
  }

  /** The characters a path keeps, and the two capital hexadecimal digits of any other byte. */
  lemma EscapeMeaning(c: char)
    requires c as int < 256
    ensures Escape([c]) ==
            if 'a' <= c <= 'z' || 'A' <= c <= 'Z' || '0' <= c <= '9' || c in "-_.~$&+,/:;=@" then [c]
            else ['%', "0123456789ABCDEF"[c as int / 16], "0123456789ABCDEF"[c as int % 16]]
  {
    assert [c][1..] == "" && Escape("") == "";
  }

  /** Small and capital hexadecimal digits mean the same, and they are all there are. */
  lemma HexMeaning(c: char)
    ensures HexValue(c).Some? <==> '0' <= c <= '9' || 'a' <= c <= 'f' || 'A' <= c <= 'F'
    ensures HexValue(c).Some? ==> c in {"0123456789abcdef"[HexValue(c).value], "0123456789ABCDEF"[HexValue(c).value]}
  {
  }

  /** A raw path of allowed characters that encodes the path is the escaped path, as it is written. */
  lemma RawPathKept(u: Url)
    requires u.rawPath != "" && Unescape(u.rawPath) == Some(u.path)
    requires forall i :: 0 <= i < |u.rawPath| ==>
               var c := u.rawPath[i];
               'a' <= c <= 'z' || 'A' <= c <= 'Z' || '0' <= c <= '9' || c in "-_.~$&+,/:;=@!'()*[]%"
    ensures EscapedPath(u) == u.rawPath
  {
    forall c | c in u.rawPath ensures MayAppear(c) {
      var i :| 0 <= i < |u.rawPath| && u.rawPath[i] == c;
    }
  }

  /** A raw path with any other character, or one that does not encode the path, is ignored. */
  lemma RawPathIgnored(u: Url, i: nat)
    requires i < |u.rawPath|
    requires var c := u.rawPath[i];
             !('a' <= c <= 'z' || 'A' <= c <= 'Z' || '0' <= c <= '9' || c in "-_.~$&+,/:;=@!'()*[]%")
             || Unescape(u.rawPath) != Some(u.path)
    ensures EscapedPath(u) == if u.path == "*" then "*" else Escape(u.path)
  {
    assert u.rawPath[i] in u.rawPath;
  }
}
