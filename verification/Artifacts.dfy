/** The shape of a configuration artifact, and the check the prepare activity makes of the file it wrote. */
module Artifacts {
  import opened Outcomes
  import opened DeploymentModels
  import opened Text

  /** File content, one character per byte. */
  type Bytes = string

  // ---------------------------------------------------------------- lines

  /** What ends a line of ASCII text in Python: more than the newline. */
  predicate LineBreak(c: char) {
    '\n' <= c <= '\r' || '\U{1c}' <= c <= '\U{1e}'
  }

  /** The number of characters up to the first line break, or all of them. */
  function LineLength(s: string): (n: nat)
    ensures n <= |s|
    ensures n < |s| ==> LineBreak(s[n])
    ensures forall k :: 0 <= k < n ==> !LineBreak(s[k])
  {
    if s == "" || LineBreak(s[0]) then 0 else 1 + LineLength(s[1..])
  }

  /** A carriage return and a newline after it break a line once. */
  function BreakLength(s: string): (n: nat)
    requires s != ""
    ensures 1 <= n <= |s|
  {
    if |s| >= 2 && s[0] == '\r' && s[1] == '\n' then 2 else 1
  }

  /** Python's splitlines: a line break at the very end starts no further line. */
  function SplitLines(s: string): seq<string>
    decreases |s|
  {
    if s == "" then []
    else
      var n := LineLength(s);
      if n == |s| then [s] else [s[..n]] + SplitLines(s[n + BreakLength(s[n..])..])
  }

  /** Joining lines with newlines, each ended by one. */
  function JoinLines(lines: seq<string>): string {
    if lines == [] then "" else lines[0] + "\n" + JoinLines(lines[1..])
  }

  predicate PlainLine(line: string) {
    forall k :: 0 <= k < |line| ==> !LineBreak(line[k])
  }

  lemma FirstLine(first: string, rest: string)
    requires PlainLine(first)
    ensures SplitLines(first + "\n" + rest) == [first] + SplitLines(rest)
  {
    var s := first + "\n" + rest;
    assert s[|first|] == '\n';
    LineEndsAt(s, |first|);
    assert s[..|first|] == first && s[|first|..][0] == '\n' && BreakLength(s[|first|..]) == 1;
    assert s[|first| + 1..] == rest;
  }

  lemma {:induction false} SplitUndoesJoin(lines: seq<string>)
    requires forall l :: l in lines ==> PlainLine(l)
    ensures SplitLines(JoinLines(lines)) == lines
  {
    if lines != [] {
      assert PlainLine(lines[0]) && forall l :: l in lines[1..] ==> l in lines;
      SplitUndoesJoin(lines[1..]);
      FirstLine(lines[0], JoinLines(lines[1..]));
      assert lines == [lines[0]] + lines[1..];
    }
  }

  lemma {:induction false} LineEndsAt(s: string, n: nat)
    requires n < |s| && LineBreak(s[n]) && forall k :: 0 <= k < n ==> !LineBreak(s[k])
    ensures LineLength(s) == n
  {
  }

  /** The characters that end a line of ASCII text in Python. */
  const BREAKS := {'\n', '\U{b}', '\U{c}', '\r', '\U{1c}', '\U{1d}', '\U{1e}'}

  /**
   What the lines of any text are: none of the empty text, the text itself when nothing in it breaks a
   line, and otherwise what comes before the first break, followed by the lines of what comes after
   it. A carriage return takes a newline with it.
   */
  lemma LinesAre(first: string, brk: char, rest: string)
    requires Without(first, BREAKS) && brk in BREAKS
    ensures SplitLines("") == []
    ensures first != "" ==> SplitLines(first) == [first]
    ensures SplitLines(first + "\r\n" + rest) == [first] + SplitLines(rest)
    ensures brk != '\r' || rest == "" || rest[0] != '\n' ==>
              SplitLines(first + [brk] + rest) == [first] + SplitLines(rest)
  {
    Broken(first, "\r\n", rest);
    if brk != '\r' || rest == "" || rest[0] != '\n' {
      Broken(first, [brk], rest);
    }
    if first != "" {
      NoLineEnds(first);
    }
  }

  lemma Broken(first: string, ending: string, rest: string)
    requires Without(first, BREAKS) && ending != "" && ending[0] in BREAKS
    requires BreakLength(ending + rest) == |ending|
    ensures SplitLines(first + ending + rest) == [first] + SplitLines(rest)
  {
    var s := first + ending + rest;
    assert s[|first|] == ending[0] && forall k :: 0 <= k < |first| ==> s[k] == first[k];
    LineEndsAt(s, |first|);
    assert s[..|first|] == first && s[|first|..] == ending + rest && s[|first| + |ending|..] == rest;
  }

  lemma NoLineEnds(s: string)
    requires Without(s, BREAKS) && s != ""
    ensures SplitLines(s) == [s]
  {
  }

  // ---------------------------------------------------------------- the shape check

  const HOSTNAME_PREFIX := "set / system name host-name "

  function HostnameLine(device: string): string {
    HOSTNAME_PREFIX + device
  }

  function HostnameLines(lines: seq<string>): seq<string> {
    if lines == [] then []
    else HostnameLines(lines[..|lines| - 1])
         + (if StartsWith(lines[|lines| - 1], HOSTNAME_PREFIX) then [lines[|lines| - 1]] else [])
  }

  function CountOf(lines: seq<string>, line: string): nat {
    if lines == [] then 0
    else CountOf(lines[..|lines| - 1], line) + (if lines[|lines| - 1] == line then 1 else 0)
  }

  datatype ShapeError = StorageUnavailable | NotAscii | WrongTarget | WrongShape | WrongPath

  predicate WellShaped(b: Bytes, device: string, identity: ArtifactIdentity, hash: Bytes -> string) {
    var lines := SplitLines(b);
    && 1 <= |b| <= MAX_ARTIFACT_BYTES && |b| == identity.byteCount && hash(b) == identity.sha256
    && b[|b| - 1] == '\n' && lines != []
    && (forall l :: l in lines ==> StartsWith(l, "set / "))
    && CountOf(lines, HostnameLine(device)) == 1
  }

  /** The check of the file just written, in the order the source makes it. */
  function VerifyShape(
    path: string, content: Option<Bytes>, device: string, identity: ArtifactIdentity, hash: Bytes -> string):
    Result<(), ShapeError>
  {
    if path != ArtifactPath(device) || identity.path != ArtifactPath(device) then Err(WrongPath)
    else if content.None? then Err(StorageUnavailable)
    else if !AsciiText(content.value) then Err(NotAscii)
    else
      var found := HostnameLines(SplitLines(content.value));
      if found != [] && found != [HostnameLine(device)] then Err(WrongTarget)
      else if !WellShaped(content.value, device, identity, hash) then Err(WrongShape)
      else Ok(())
  }

  method FindHostnameLines(lines: seq<string>) returns (found: seq<string>)
    ensures found == HostnameLines(lines)
  {
    found := [];
    for i := 0 to |lines|
      invariant found == HostnameLines(lines[..i])
    {
      assert lines[..i + 1][..i] == lines[..i];
      if StartsWith(lines[i], HOSTNAME_PREFIX) {
        found := found + [lines[i]];
      }
    }
    assert lines[..|lines|] == lines;
  }

  method CountLine(lines: seq<string>, line: string) returns (n: nat)
    ensures n == CountOf(lines, line)
  {
    n := 0;
    for i := 0 to |lines|
      invariant n == CountOf(lines[..i], line)
    {
      assert lines[..i + 1][..i] == lines[..i];
      if lines[i] == line {
        n := n + 1;
      }
    }
    assert lines[..|lines|] == lines;
  }

  lemma {:induction false} HostnameLinesCount(lines: seq<string>, line: string)
    requires StartsWith(line, HOSTNAME_PREFIX)
    ensures CountOf(HostnameLines(lines), line) == CountOf(lines, line)
    ensures forall l :: l in HostnameLines(lines) <==> l in lines && StartsWith(l, HOSTNAME_PREFIX)
  {
    if lines != [] {
      var init, last := lines[..|lines| - 1], lines[|lines| - 1];
      assert lines == init + [last];
      HostnameLinesCount(init, line);
      var found := HostnameLines(init);
      if StartsWith(last, HOSTNAME_PREFIX) {
        assert (found + [last])[..|found|] == found;
      } else {
        assert found + [] == found;
      }
    }
  }

  /** Line i names the device, and no other line sets a host name. */
  predicate NamesOnly(lines: seq<string>, device: string, i: nat)
    requires i < |lines|
  {
    lines[i] == HostnameLine(device) && forall j :: 0 <= j < |lines| && j != i ==>
        !StartsWith(lines[j], HOSTNAME_PREFIX)
  }

  lemma {:induction false} OneHostnameLine(lines: seq<string>, line: string)
    requires HostnameLines(lines) == [line]
    ensures exists i :: 0 <= i < |lines| && lines[i] == line && forall j :: 0 <= j < |lines| && j != i ==>
            !StartsWith(lines[j], HOSTNAME_PREFIX)
  {
    var init, last := lines[..|lines| - 1], lines[|lines| - 1];
    assert lines == init + [last];
    if StartsWith(last, HOSTNAME_PREFIX) {
      assert HostnameLines(init) == [];
      HostnameLinesCount(init, HOSTNAME_PREFIX);
      assert lines[|lines| - 1] == HostnameLines(lines)[|HostnameLines(lines)| - 1] == line;
      forall j | 0 <= j < |init| ensures !StartsWith(lines[j], HOSTNAME_PREFIX) {
        assert lines[j] in init;
      }
    } else {
      assert HostnameLines(init) == [line];
      OneHostnameLine(init, line);
    }
  }

  lemma {:induction false} NoHostnameLines(lines: seq<string>)
    requires forall l :: l in lines ==> !StartsWith(l, HOSTNAME_PREFIX)
    ensures HostnameLines(lines) == []
  {
    if lines != [] {
      NoHostnameLines(lines[..|lines| - 1]);
    }
  }

  lemma {:induction false} OnlyHostnameLine(lines: seq<string>, device: string, i: nat)
    requires i < |lines| && NamesOnly(lines, device, i)
    ensures HostnameLines(lines) == [HostnameLine(device)] && CountOf(lines, HostnameLine(device)) == 1
  {
    var init, last := lines[..|lines| - 1], lines[|lines| - 1];
    assert lines == init + [last];
    assert HostnameLine(device)[..|HOSTNAME_PREFIX|] == HOSTNAME_PREFIX;
    if i == |lines| - 1 {
      forall l | l in init ensures !StartsWith(l, HOSTNAME_PREFIX) {
        var j :| 0 <= j < |init| && init[j] == l;
        assert lines[j] == l;
      }
      NoHostnameLines(init);
      HostnameLinesCount(init, HostnameLine(device));
    } else {
      OnlyHostnameLine(init, device, i);
      assert last != HostnameLine(device);
    }
  }

  /** One line names the device, and no other sets a host name. */
  predicate NamedOnce(lines: seq<string>, device: string) {
    exists i :: 0 <= i < |lines| && NamesOnly(lines, device, i)
  }

  lemma NamedOnceExactlyWhen(lines: seq<string>, device: string)
    ensures NamedOnce(lines, device) <==> HostnameLines(lines) == [HostnameLine(device)]
    ensures NamedOnce(lines, device) ==> CountOf(lines, HostnameLine(device)) == 1
    ensures HostnameLines(lines) == [] ==> CountOf(lines, HostnameLine(device)) == 0
  {
    var line := HostnameLine(device);
    assert line[..|HOSTNAME_PREFIX|] == HOSTNAME_PREFIX;
    HostnameLinesCount(lines, line);
    if HostnameLines(lines) == [line] {
      OneHostnameLine(lines, line);
      var i :| 0 <= i < |lines| && lines[i] == line && forall j :: 0 <= j < |lines| && j != i ==>
          !StartsWith(lines[j], HOSTNAME_PREFIX);
      assert NamesOnly(lines, device, i);
    }
    if NamedOnce(lines, device) {
      var i :| 0 <= i < |lines| && NamesOnly(lines, device, i);
      OnlyHostnameLine(lines, device, i);
    }
    if HostnameLines(lines) == [] {
      assert CountOf(HostnameLines(lines), line) == 0;
    }
  }

  /**
   An artifact is accepted exactly when it is a file of ASCII commands of the promised size and
   digest, ended by a newline, in which one line and no other sets the host name, to the device.
   */
  lemma VerifyShapeAcceptsExactlyWhen(
    path: string, content: Option<Bytes>, device: string, identity: ArtifactIdentity, hash: Bytes -> string)
    ensures VerifyShape(path, content, device, identity, hash).Ok? <==>
              && path == identity.path == ArtifactPath(device) && content.Some?
              && var b := content.value; var lines := SplitLines(b);
                 && AsciiText(b) && 1 <= |b| <= MAX_ARTIFACT_BYTES && |b| == identity.byteCount
                    && hash(b) == identity.sha256
                 && b[|b| - 1] == '\n' && (forall l :: l in lines ==> StartsWith(l, "set / "))
                 && NamedOnce(lines, device)
  {
    if content.Some? {
      var lines := SplitLines(content.value);
      NamedOnceExactlyWhen(lines, device);
      assert NamedOnce(lines, device) ==> lines != [];
      hide SplitLines, ArtifactPath, AsciiText, HostnameLine, HostnameLines, CountOf, NamedOnce, StartsWith;
    }
  }

  /** Which refusal it is otherwise: each of the source's conditions comes after those before it. */
  lemma ShapeRefusals(
    path: string, content: Option<Bytes>, device: string, identity: ArtifactIdentity, hash: Bytes -> string)
    ensures var r := VerifyShape(path, content, device, identity, hash);
            && (r == Err(WrongPath) <==> !(path == identity.path == ArtifactPath(device)))
            && (r == Err(StorageUnavailable) <==> path == identity.path == ArtifactPath(device) && content.None?)
            && (r == Err(NotAscii) <==>
                path == identity.path == ArtifactPath(device) && content.Some? && !AsciiText(content.value))
            && (r == Err(WrongTarget) <==>
                && path == identity.path == ArtifactPath(device) && content.Some? && AsciiText(content.value)
                && (exists l :: l in SplitLines(content.value) && StartsWith(l, "set / system name host-name "))
                && !NamedOnce(SplitLines(content.value), device))
  {
    if content.Some? {
      var lines := SplitLines(content.value);
      NamedOnceExactlyWhen(lines, device);
      HostnameLinesCount(lines, HOSTNAME_PREFIX);
      assert HostnameLines(lines) != [] ==> HostnameLines(lines)[0] in HostnameLines(lines);
      hide SplitLines, ArtifactPath, AsciiText, HostnameLine, HostnameLines, CountOf, NamedOnce, StartsWith;
      hide WellShaped;
    }
  }

  method VerifyArtifactShape(
    path: string, content: Option<Bytes>, device: string, identity: ArtifactIdentity, hash: Bytes -> string)
    returns (r: Result<(), ShapeError>)
    ensures r == VerifyShape(path, content, device, identity, hash)
  {
    hide ArtifactPath, SplitLines, HostnameLine, AsciiText;
    if path != ArtifactPath(device) || identity.path != ArtifactPath(device) {
      return Err(WrongPath);
    }
    if content.None? {
      return Err(StorageUnavailable);
    }
    if !AsciiText(content.value) {
      return Err(NotAscii);
    }
    var b, lines := content.value, SplitLines(content.value);
    var found := FindHostnameLines(lines);
    if found != [] && found != [HostnameLine(device)] {
      return Err(WrongTarget);
    }
    var named := CountLine(lines, HostnameLine(device));
    if !(1 <= |b| <= MAX_ARTIFACT_BYTES) || |b| != identity.byteCount || hash(b) != identity.sha256
       || b[|b| - 1] != '\n' || lines == [] || !(forall l :: l in lines ==> StartsWith(l, "set / ")) || named != 1 {
      return Err(WrongShape);
    }
    return Ok(());
  }

  // ---------------------------------------------------------------- what a rendering should be

  /** A rendering: commands on lines of their own, of which one names the device. */
  predicate Commands(lines: seq<string>, device: string) {
    && (forall l :: l in lines ==> PlainLine(l) && AsciiText(l) && StartsWith(l, "set / "))
    && NamedOnce(lines, device)
  }

  function IdentityOf(content: Bytes, device: string, hash: Bytes -> string): ArtifactIdentity {
    ArtifactIdentity(device, ArtifactPath(device), hash(content), |content|)
  }

  lemma {:induction false} JoinedText(lines: seq<string>)
    requires forall l :: l in lines ==> AsciiText(l)
    ensures AsciiText(JoinLines(lines)) && (lines != [] ==>
            |JoinLines(lines)| >= 1 && JoinLines(lines)[|JoinLines(lines)| - 1] == '\n')
  {
    if lines != [] {
      assert AsciiText(lines[0]);
      JoinedText(lines[1..]);
    }
  }

  /** A rendering of commands passes its own check as long as it is not too large. */
  lemma RenderingIsAccepted(lines: seq<string>, device: string, hash: Bytes -> string)
    requires Commands(lines, device) && |JoinLines(lines)| <= MAX_ARTIFACT_BYTES
    ensures var b := JoinLines(lines);
            VerifyShape(ArtifactPath(device), Some(b), device, IdentityOf(b, device, hash), hash).Ok?
  {
    var b := JoinLines(lines);
    SplitUndoesJoin(lines);
    JoinedText(lines);
    VerifyShapeAcceptsExactlyWhen(ArtifactPath(device), Some(b), device, IdentityOf(b, device, hash), hash);
    assert lines != [];
    hide JoinLines, SplitLines, ArtifactPath, VerifyShape, NamedOnce, StartsWith;
  }
}
