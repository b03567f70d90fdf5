/** Validated SMB paths: parsing, joining, rendering, and the normal form they keep. */
module Paths {
  import opened Bytes
  import Sharing

  /** Components from the share root, and the named stream of the last one. */
  datatype SmbPath = SmbPath(components: seq<string>, stream: Option<string>)

  const ROOT := SmbPath([], None)

  const INVALID := "NameInvalid"

  predicate IsSeparator(c: char) {
    c == '\\' || c == '/'
  }

  predicate IsForbidden(c: char) {
    c < ' ' || c in "<>\"|?*"
  }

  function Upper(s: string): (r: string)
    ensures |r| == |s|
  {
    seq(|s|, i requires 0 <= i < |s| => if 'a' <= s[i] <= 'z' then (s[i] - 'a') + 'A' else s[i])
  }

  /** `split_once`: what comes before and after the first `c`. */
  function SplitOnce(s: string, c: char): (r: Option<(string, string)>)
    ensures r.None? <==> c !in s
    ensures r.Some? ==> s == r.value.0 + [c] + r.value.1 && c !in r.value.0
  {
    if s == "" then None
    else if s[0] == c then Some(("", s[1..]))
    else match SplitOnce(s[1..], c)
      case None => None
      case Some((a, b)) => Some(([s[0]] + a, b))
  }

  /** The name without its extension: everything before the last dot. */
  function Stem(s: string): string {
    if '.' !in s then s
    else if s[|s| - 1] == '.' then s[..|s| - 1]
    else Stem(s[..|s| - 1])
  }

  predicate IsReservedDosName(s: string) {
    var u := Upper(Stem(s));
    || u in {"CON", "PRN", "AUX", "NUL"}
    || (|u| == 4 && u[..3] in {"COM", "LPT"} && '1' <= u[3] <= '9')
  }

  /** `name[:stream[:type]]`; an empty stream is the primary one. */
  function SplitStreamSelector(last: string): Result<(string, Option<string>)> {
    match SplitOnce(last, ':')
    case None => Ok((last, None))
    case Some((name, rest)) =>
      var (stream, badType) := match SplitOnce(rest, ':')
        case Some((stream, ty)) => (stream, Upper(ty) != "$DATA")
        case None => (rest, false);
      if badType then Err(INVALID)
      else if stream == "" then Ok((name, None))
      else Ok((name, Some(stream)))
  }

  /** Parts between separators, never none. */
  function Split(s: string): (parts: seq<string>)
    ensures |parts| > 0
  {
    if s == "" then [""]
    else if IsSeparator(s[0]) then [""] + Split(s[1..])
    else
      var r := Split(s[1..]);
      [[s[0]] + r[0]] + r[1..]
  }

  /** Directory parts: `.` is skipped, an empty, `..` or reserved part is refused. */
  function Collect(parts: seq<string>): Result<seq<string>> {
    if parts == [] then Ok([])
    else if parts[0] == "." then Collect(parts[1..])
    else if parts[0] == "" || parts[0] == ".." || IsReservedDosName(parts[0]) then Err(INVALID)
    else Prepend([parts[0]], Collect(parts[1..]))
  }

  function FinishPath(dirs: seq<string>, name: string, stream: Option<string>): Result<SmbPath> {
    if name == "" then Err(INVALID)
    else if name == "." then if stream.Some? then Err(INVALID) else Ok(SmbPath(dirs, stream))
    else if name == ".." || IsReservedDosName(name) then Err(INVALID)
    else Ok(SmbPath(dirs + [name], stream))
  }

  function Trim(s: string): string {
    if s != "" && IsSeparator(s[0]) then s[1..] else s
  }

  predicate HasForbidden(s: string) {
    exists i :: 0 <= i < |s| && IsForbidden(s[i])
  }

  predicate HasColon(parts: seq<string>) {
    exists i :: 0 <= i < |parts| && ':' in parts[i]
  }

  function Parse(s: string): Result<SmbPath> {
    var t := Trim(s);
    if t == "" then Ok(ROOT)
    else if HasForbidden(t) then Err(INVALID)
    else
      var parts := Split(t);
      var dirs := parts[..|parts| - 1];
      if HasColon(dirs) then Err(INVALID)
      else match SplitStreamSelector(parts[|parts| - 1])
        case Err(e) => Err(e)
        case Ok((name, stream)) =>
          match Collect(dirs)
          case Err(e) => Err(e)
          case Ok(cs) => FinishPath(cs, name, stream)
  }

  /** `parse_components`, loops as in the program. */
  method ParseComponents(s: string) returns (r: Result<SmbPath>)
    ensures r == Parse(s)
  {
    hide Split, IsReservedDosName, SplitStreamSelector, Prepend;
    var t := Trim(s);
    if t == "" {
      return Ok(ROOT);
    }
    for i := 0 to |t|
      invariant forall k :: 0 <= k < i ==> !IsForbidden(t[k])
    {
      if IsForbidden(t[i]) {
        return Err(INVALID);
      }
    }
    var parts := Split(t);
    var last := parts[|parts| - 1];
    parts := parts[..|parts| - 1];
    for i := 0 to |parts|
      invariant forall k :: 0 <= k < i ==> ':' !in parts[k]
    {
      if ':' in parts[i] {
        return Err(INVALID);
      }
    }
    var selector := SplitStreamSelector(last);
    if selector.Err? {
      return Err(selector.reason);
    }
    var (name, stream) := selector.value;
    var components: seq<string> := [];
    PrependLaws([], [], Collect(parts));
    assert parts[0..] == parts;
    for i := 0 to |parts|
      invariant Collect(parts) == Prepend(components, Collect(parts[i..]))
    {
      PrependErr(components);
      var raw := parts[i];
      assert parts[i..][1..] == parts[i + 1..];
      if raw == "" {
        return Err(INVALID);
      }
      if raw == "." {
        continue;
      }
      if raw == ".." || IsReservedDosName(raw) {
        return Err(INVALID);
      }
      PrependLaws(components, [raw], Collect(parts[i + 1..]));
      components := components + [raw];
    }
    PrependLaws(components, [], Ok([]));
    if name == "" {
      return Err(INVALID);
    }
    if name == "." {
      if stream.Some? {
        return Err(INVALID);
      }
    } else {
      if name == ".." || IsReservedDosName(name) {
        return Err(INVALID);
      }
      components := components + [name];
    }
    r := Ok(SmbPath(components, stream));
  }

  lemma PrependErr(done: seq<string>)
    ensures Prepend(done, Err(INVALID)) == Err(INVALID)
  {
  }

  function Parent(p: SmbPath): Option<SmbPath> {
    if p.components == [] then None else Some(SmbPath(p.components[..|p.components| - 1], None))
  }

  function Join(p: SmbPath, last: string): Result<SmbPath> {
    match Parse(last)
    case Err(e) => Err(e)
    case Ok(extra) => Ok(SmbPath(p.components + extra.components, extra.stream))
  }

  /** `display_backslash`. */
  function Render(cs: seq<string>): string {
    if cs == [] then "" else if |cs| == 1 then cs[0] else cs[0] + "\\" + Render(cs[1..])
  }

  // ---- the normal form ----

  predicate PlainText(s: string) {
    forall i :: 0 <= i < |s| ==> !IsSeparator(s[i]) && !IsForbidden(s[i]) && s[i] != ':'
  }

  /** What a backend may rely on for every component. */
  predicate IsClean(c: string) {
    c != "" && c != "." && c != ".." && !IsReservedDosName(c) && PlainText(c)
  }

  predicate NormalForm(p: SmbPath) {
    && (forall i :: 0 <= i < |p.components| ==> IsClean(p.components[i]))
    && (p.stream.Some? ==> p.components != [] && p.stream.value != "" && PlainText(p.stream.value))
  }

  predicate NoSeparator(s: string) {
    forall i :: 0 <= i < |s| ==> !IsSeparator(s[i])
  }

  lemma {:induction false} SplitPieces(s: string)
    ensures forall i :: 0 <= i < |Split(s)| ==> NoSeparator(Split(s)[i])
    ensures !HasForbidden(s) ==> forall i :: 0 <= i < |Split(s)| ==> !HasForbidden(Split(s)[i])
  {
    if s != "" {
      SplitPieces(s[1..]);
      assert HasForbidden(s[1..]) ==> HasForbidden(s) by {
        if HasForbidden(s[1..]) {
          var i :| 0 <= i < |s[1..]| && IsForbidden(s[1..][i]);
          assert IsForbidden(s[i + 1]);
        }
      }
      assert !HasForbidden(s) ==> !IsForbidden(s[0]);
    }
  }

  lemma {:induction false} CollectClean(parts: seq<string>)
    requires forall i :: 0 <= i < |parts| ==> PlainText(parts[i])
    ensures Collect(parts).Ok? ==> forall i :: 0 <= i < |Collect(parts).value| ==> IsClean(Collect(parts).value[i])
  {
    hide IsReservedDosName, PlainText;
    if parts != [] {
      CollectClean(parts[1..]);
    }
  }

  predicate Safe(s: string) {
    NoSeparator(s) && !HasForbidden(s)
  }

  lemma SafePieces(s: string, c: char)
    requires Safe(s) && SplitOnce(s, c).Some?
    ensures var (a, b) := SplitOnce(s, c).value; Safe(a) && Safe(b)
  {
    hide SplitOnce;
    var (a, b) := SplitOnce(s, c).value;
    assert forall i :: 0 <= i < |a| ==> a[i] == s[i];
    assert forall i :: 0 <= i < |b| ==> b[i] == s[|a| + 1 + i];
  }

  lemma SafePlain(s: string)
    requires Safe(s) && ':' !in s
    ensures PlainText(s)
  {
    assert forall i :: 0 <= i < |s| ==> s[i] in s && !IsForbidden(s[i]);
  }

  lemma SelectorPlain(last: string)
    requires Safe(last) && SplitStreamSelector(last).Ok?
    ensures var (name, stream) := SplitStreamSelector(last).value;
            PlainText(name) && (stream.Some? ==> stream.value != "" && PlainText(stream.value))
  {
    hide SplitOnce, Safe, PlainText, Upper;
    match SplitOnce(last, ':')
    case None =>
      SafePlain(last);
    case Some((name, rest)) =>
      SafePieces(last, ':');
      SafePlain(name);
      match SplitOnce(rest, ':')
      case None =>
        SafePlain(rest);
      case Some((stream, ty)) =>
        SafePieces(rest, ':');
        SafePlain(stream);
  }

  lemma PlainDirs(dirs: seq<string>)
    requires !HasColon(dirs)
    requires forall i :: 0 <= i < |dirs| ==> NoSeparator(dirs[i]) && !HasForbidden(dirs[i])
    ensures forall i :: 0 <= i < |dirs| ==> PlainText(dirs[i])
  {
    forall i | 0 <= i < |dirs|
      ensures PlainText(dirs[i])
    {
      assert ':' !in dirs[i];
      assert forall k :: 0 <= k < |dirs[i]| ==> dirs[i][k] in dirs[i];
    }
  }

  /** Every parsed path is in normal form. */
  lemma ParseGivesNormalForm(s: string)
    ensures Parse(s).Ok? ==> NormalForm(Parse(s).value)
  {
    hide Split, IsReservedDosName, PlainText, SplitStreamSelector, Collect, HasForbidden, HasColon, NoSeparator;
    if Parse(s).Ok? && Trim(s) != "" {
      var parts := Split(Trim(s));
      SplitPieces(Trim(s));
      PlainDirs(parts[..|parts| - 1]);
      SelectorPlain(parts[|parts| - 1]);
      CollectClean(parts[..|parts| - 1]);
    }
  }

  /** Joining and taking the parent keep the normal form. */
  lemma JoinAndParentKeepNormalForm(p: SmbPath, last: string)
    requires NormalForm(p)
    ensures Join(p, last).Ok? ==> NormalForm(Join(p, last).value)
    ensures Parent(p).Some? ==> NormalForm(Parent(p).value)
  {
    hide Parse, IsClean, PlainText;
    ParseGivesNormalForm(last);
  }

  // ---- rendering ----

  lemma {:induction false} SplitPlain(c: string)
    requires NoSeparator(c)
    ensures Split(c) == [c]
  {
    if c != "" {
      SplitPlain(c[1..]);
      assert [c[0]] + c[1..] == c;
    }
  }

  lemma {:induction false} SplitFirst(c: string, rest: string)
    requires NoSeparator(c)
    ensures Split(c + "\\" + rest) == [c] + Split(rest)
  {
    var s := c + "\\" + rest;
    if c == "" {
      assert s[1..] == rest;
    } else {
      SplitFirst(c[1..], rest);
      assert s[1..] == c[1..] + "\\" + rest;
      assert [c[0]] + c[1..] == c;
    }
  }

  lemma {:induction false} SplitRender(cs: seq<string>)
    requires cs != [] && forall i :: 0 <= i < |cs| ==> NoSeparator(cs[i])
    ensures Split(Render(cs)) == cs
  {
    hide NoSeparator;
    if |cs| == 1 {
      SplitPlain(cs[0]);
    } else {
      SplitRender(cs[1..]);
      SplitFirst(cs[0], Render(cs[1..]));
      assert cs == [cs[0]] + cs[1..];
    }
  }

  lemma {:induction false} CollectAll(cs: seq<string>)
    requires forall i :: 0 <= i < |cs| ==> IsClean(cs[i])
    ensures Collect(cs) == Ok(cs)
  {
    hide IsReservedDosName, PlainText;
    if cs != [] {
      CollectAll(cs[1..]);
      assert cs == [cs[0]] + cs[1..];
    }
  }

  lemma {:induction false} RenderPlain(cs: seq<string>)
    requires forall i :: 0 <= i < |cs| ==> IsClean(cs[i])
    ensures !HasForbidden(Render(cs))
    ensures cs != [] ==> Render(cs) != "" && !IsSeparator(Render(cs)[0])
  {
    hide IsReservedDosName;
    if cs != [] {
      assert !IsSeparator(cs[0][0]);
      RenderPlain(cs[1..]);
    }
  }

  lemma PlainHasNoStream(c: string)
    requires PlainText(c)
    ensures SplitStreamSelector(c) == Ok((c, None)) && NoSeparator(c) && ':' !in c
  {
  }

  /** Rendering and parsing again gives the same components and no stream. */
  lemma RenderParses(p: SmbPath)
    requires NormalForm(p)
    ensures Parse(Render(p.components)) == Ok(SmbPath(p.components, None))
  {
    hide Split, IsReservedDosName, PlainText, SplitStreamSelector, Collect, HasForbidden, NoSeparator, Render;
    var cs := p.components;
    forall i | 0 <= i < |cs|
      ensures NoSeparator(cs[i]) && ':' !in cs[i] && SplitStreamSelector(cs[i]) == Ok((cs[i], None))
    {
      PlainHasNoStream(cs[i]);
    }
    RenderNone();
    if cs != [] {
      RenderPlain(cs);
      SplitRender(cs);
      CollectAll(cs[..|cs| - 1]);
      assert cs == cs[..|cs| - 1] + [cs[|cs| - 1]];
    }
  }

  lemma RenderNone()
    ensures Render([]) == ""
  {
  }

  /** The parent joined with the file name is the path again, without its stream. */
  lemma ParentJoinFileName(p: SmbPath)
    requires NormalForm(p) && p.components != []
    ensures Join(Parent(p).value, p.components[|p.components| - 1]) == Ok(SmbPath(p.components, None))
  {
    hide Parse, IsClean, PlainText;
    var cs := p.components;
    var last := cs[|cs| - 1];
    RenderParses(SmbPath([last], None));
    assert cs == cs[..|cs| - 1] + [last];
  }

  // ---- the characters themselves ----

  /** Text free of separators, of `:`, and of what a name may not hold. */
  predicate Harmless(s: string) {
    forall i :: 0 <= i < |s| ==>
      && s[i] != '/' && s[i] != '\\' && s[i] != ':' && s[i] as int >= 32
      && s[i] != '<' && s[i] != '>' && s[i] != '"' && s[i] != '|' && s[i] != '?' && s[i] != '*'
  }

  lemma PlainIsHarmless(s: string)
    ensures PlainText(s) <==> Harmless(s)
  {
    if Harmless(s) {
      forall i | 0 <= i < |s|
        ensures !IsSeparator(s[i]) && !IsForbidden(s[i]) && s[i] != ':'
      {
        ForbiddenOnes(s[i]);
      }
    }
    if PlainText(s) {
      forall i | 0 <= i < |s|
        ensures s[i] != '/' && s[i] != '\\' && s[i] != ':' && s[i] as int >= 32
        ensures s[i] != '<' && s[i] != '>' && s[i] != '"' && s[i] != '|' && s[i] != '?' && s[i] != '*'
      {
        ForbiddenOnes(s[i]);
      }
    }
  }

  lemma ForbiddenOnes(c: char)
    ensures IsForbidden(c) <==> c as int < 32 || c == '<' || c == '>' || c == '"' || c == '|' || c == '?' || c == '*'
  {
    var f := "<>\"|?*";
    assert f[0] == '<' && f[1] == '>' && f[2] == '"' && f[3] == '|' && f[4] == '?' && f[5] == '*';
  }

  /** No component of an accepted path, and no stream, holds a separator of either kind, a colon or a forbidden
      character; no component is empty, `.`, `..` or reserved. */
  lemma AcceptedIsHarmless(s: string)
    requires Parse(s).Ok?
    ensures var p := Parse(s).value;
            && (forall i :: 0 <= i < |p.components| ==>
                  var c := p.components[i];
                  Harmless(c) && c != "" && c != "." && c != ".." && !IsReservedDosName(c))
            && (p.stream.Some? ==> Harmless(p.stream.value) && p.stream.value != "" && p.components != [])
  {
    hide IsReservedDosName, PlainText, Harmless, Parse;
    ParseGivesNormalForm(s);
    var p := Parse(s).value;
    forall i | 0 <= i < |p.components|
      ensures Harmless(p.components[i])
    {
      PlainIsHarmless(p.components[i]);
    }
    if p.stream.Some? {
      PlainIsHarmless(p.stream.value);
    }
  }

  /** A path with every forward slash turned around. */
  function Backslashed(s: string): (r: string)
    ensures |r| == |s|
  {
    seq(|s|, i requires 0 <= i < |s| => if s[i] == '/' then '\\' else s[i])
  }

  lemma {:induction false} SplitBackslashed(s: string)
    ensures Split(Backslashed(s)) == Split(s)
  {
    if s != "" {
      SplitBackslashed(s[1..]);
      assert Backslashed(s)[1..] == Backslashed(s[1..]);
    } else {
      assert Backslashed(s) == "";
    }
  }

  lemma ForbiddenBackslashed(s: string)
    ensures HasForbidden(Backslashed(s)) <==> HasForbidden(s)
  {
    var b := Backslashed(s);
    ForbiddenOnes('/');
    ForbiddenOnes('\\');
    if i :| 0 <= i < |s| && IsForbidden(s[i]) {
      assert IsForbidden(b[i]);
    }
    if i :| 0 <= i < |b| && IsForbidden(b[i]) {
      assert IsForbidden(s[i]);
    }
  }

  lemma TrimBackslashed(s: string)
    ensures Trim(Backslashed(s)) == Backslashed(Trim(s))
  {
    if s != "" {
      assert Backslashed(s)[1..] == Backslashed(s[1..]);
    } else {
      assert Backslashed(s) == "";
    }
  }

  /** The two separators are one: turning slashes around never changes what a path parses to. */
  lemma SlashesAreAlike(s: string)
    ensures Parse(Backslashed(s)) == Parse(s)
  {
    hide Split, Collect, SplitStreamSelector, HasForbidden, HasColon, Trim;
    TrimBackslashed(s);
    SplitBackslashed(Trim(s));
    ForbiddenBackslashed(Trim(s));
    assert Backslashed(Trim(s)) == "" <==> Trim(s) == "";
  }

  // ---- reserved names ----

  const DEVICES: set<string> := {
    "CON", "PRN", "AUX", "NUL",
    "COM1", "COM2", "COM3", "COM4", "COM5", "COM6", "COM7", "COM8", "COM9",
    "LPT1", "LPT2", "LPT3", "LPT4", "LPT5", "LPT6", "LPT7", "LPT8", "LPT9"}

  /** A name that spells a device, in any case. */
  predicate Spells(s: string, device: string) {
    |s| == |device| && forall i :: 0 <= i < |s| ==> Sharing.SameLetter(s[i], device[i])
  }

  lemma UpperSpells(s: string, device: string)
    requires Spells(s, device) && forall i :: 0 <= i < |device| ==> !('a' <= device[i] <= 'z')
    ensures Upper(s) == device
  {
  }

  lemma DeviceIsReservedStem(u: string)
    requires u in DEVICES
    ensures || u in {"CON", "PRN", "AUX", "NUL"}
            || (|u| == 4 && u[..3] in {"COM", "LPT"} && '1' <= u[3] <= '9')
    ensures forall i :: 0 <= i < |u| ==> !('a' <= u[i] <= 'z')
    ensures '.' !in u
  {
    if u !in {"CON", "PRN", "AUX", "NUL"} {
      assert u[..3] == "COM" || u[..3] == "LPT";
    }
  }

  lemma {:induction false} StemOf(name: string, ext: string)
    requires '.' !in ext
    ensures Stem(name + "." + ext) == name
  {
    var s := name + "." + ext;
    assert s[|name|] == '.';
    if ext == "" {
      assert s[|s| - 1] == '.' && s[..|s| - 1] == name;
    } else {
      assert s[|s| - 1] == ext[|ext| - 1] && ext[|ext| - 1] in ext;
      assert s[..|s| - 1] == name + "." + ext[..|ext| - 1];
      StemOf(name, ext[..|ext| - 1]);
    }
  }

  /** A device name in any case, alone or with an extension, is no path, nor any part of one. */
  lemma DevicesAreRefused(s: string, device: string, ext: string)
    requires device in DEVICES && Spells(s, device) && '.' !in ext
    ensures IsReservedDosName(s) && IsReservedDosName(s + "." + ext)
    ensures forall path :: Parse(path).Ok? ==>
              s !in Parse(path).value.components && s + "." + ext !in Parse(path).value.components
  {
    hide Parse;
    DeviceIsReservedStem(device);
    UpperSpells(s, device);
    assert '.' !in s by { NoDot(s, device); }
    StemOf(s, ext);
    forall path | Parse(path).Ok?
      ensures s !in Parse(path).value.components && s + "." + ext !in Parse(path).value.components
    {
      AcceptedIsHarmless(path);
    }
  }

  lemma NoDot(s: string, device: string)
    requires Spells(s, device) && '.' !in device
    ensures '.' !in s
  {
    forall i | 0 <= i < |s|
      ensures s[i] != '.'
    {
      assert device[i] in device;
    }
  }
}
