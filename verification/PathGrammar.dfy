/** Exactly which paths the parser accepts, and what it makes of them: a statement about every path, as the names and
    the stream selector it spells out. */
module PathGrammar {
  import opened Bytes
  import opened Paths
  import Sharing

  /** What may stand behind the last name. */
  datatype Suffix = Bare | Stream(name: string) | Typed(name: string, kind: string) {
    function Spelled(): string {
      match this
      case Bare => ""
      case Stream(name) => ":" + name
      case Typed(name, kind) => ":" + name + ":" + kind
    }

    /** An empty stream is the file's own. */
    function Selected(): Option<string> {
      if Bare? || name == "" then None else Some(name)
    }

    /** Only data streams are known, and `.` has none. */
    predicate Fits(last: string) {
      && (!Bare? ==> Harmless(name) && (name != "" ==> last != "."))
      && (Typed? ==> Spells(kind, "$DATA"))
    }
  }

  predicate Slashless(s: string) {
    forall i :: 0 <= i < |s| ==> s[i] != '/' && s[i] != '\\'
  }

  /** A name, or `.`, which stands for nothing. */
  predicate Acceptable(s: string) {
    Harmless(s) && s != "" && s != ".." && !IsReservedDosName(s)
  }

  predicate AllAcceptable(names: seq<string>) {
    forall i :: 0 <= i < |names| ==> Acceptable(names[i])
  }

  function Dotless(names: seq<string>): seq<string> {
    if names == [] then [] else (if names[0] == "." then [] else [names[0]]) + Dotless(names[1..])
  }

  /** The text of a path, from its names, the last one's suffix and one leading separator. */
  function Text(dirs: seq<string>, last: string, x: Suffix): string {
    "\\" + Render(dirs + [last + x.Spelled()])
  }

  /** A path is accepted exactly when every name is acceptable and the suffix fits; it is then the names without the
      dots, with the stream selected. `EveryText` says that any text with a leading separator is of this form. */
  lemma ParseMeans(dirs: seq<string>, last: string, x: Suffix)
    requires forall i :: 0 <= i < |dirs| ==> Slashless(dirs[i])
    requires Slashless(last + x.Spelled()) && ':' !in last && (!x.Bare? ==> ':' !in x.name)
    requires Text(dirs, last, x) != "\\"
    ensures Parse(Text(dirs, last, x)) ==
      if AllAcceptable(dirs + [last]) && x.Fits(last) then Ok(SmbPath(Dotless(dirs + [last]), x.Selected()))
      else Err(INVALID)
  {
    hide Parse, SplitStreamSelector, Collect, HasForbidden, HasColon, Render, Dotless, IsReservedDosName, Harmless;
    hide Suffix.Fits, Suffix.Spelled, Suffix.Selected, AllAcceptable, FinishPath, Slashless, Spells, NoSeparator;
    var pieces := dirs + [last + x.Spelled()];
    forall i | 0 <= i < |pieces|
      ensures NoSeparator(pieces[i])
    {
      SlashlessSeparates(pieces[i]);
    }
    assert pieces[..|pieces| - 1] == dirs;
    ParsePieces(pieces);
    if i :| 0 <= i < |pieces| && HasForbidden(pieces[i]) {
      ForbiddenIsNotAccepted(dirs, last, x, i);
    } else if HasColon(dirs) {
      ColonIsNotAccepted(dirs, last);
    } else {
      HarmlessNames(dirs, last, x);
      SelectorMeans(last, x);
      CollectMeans(dirs);
      if SplitStreamSelector(last + x.Spelled()).Ok? {
        FinishMeans(dirs, last, x);
      }
    }
  }

  lemma SlashlessSeparates(s: string)
    ensures Slashless(s) <==> NoSeparator(s)
  {
  }

  /** The parser's course over the pieces between separators. */
  lemma ParsePieces(pieces: seq<string>)
    requires pieces != [] && Render(pieces) != "" && forall i :: 0 <= i < |pieces| ==> NoSeparator(pieces[i])
    ensures var dirs := pieces[..|pieces| - 1]; var selector := SplitStreamSelector(pieces[|pieces| - 1]);
            Parse("\\" + Render(pieces)) ==
              if (exists i :: 0 <= i < |pieces| && HasForbidden(pieces[i])) || HasColon(dirs) then Err(INVALID)
              else if selector.Err? then Err(selector.reason)
              else if Collect(dirs).Err? then Err(Collect(dirs).reason)
              else FinishPath(Collect(dirs).value, selector.value.0, selector.value.1)
  {
    hide Split, SplitStreamSelector, Collect, HasForbidden, HasColon, Render, NoSeparator, FinishPath;
    assert Trim("\\" + Render(pieces)) == Render(pieces);
    SplitRender(pieces);
    ForbiddenInText(pieces);
  }

  /** A path that starts with no separator parses as if one stood before it. */
  lemma LeadingSeparator(s: string)
    requires s != "" && s[0] != '\\' && s[0] != '/'
    ensures Parse("\\" + s) == Parse(s)
  {
    hide Split, SplitStreamSelector, Collect, HasForbidden, HasColon;
    assert Trim("\\" + s) == s;
  }

  /** Every text behind a separator, its slashes turned to one side, is the text of some names and a suffix. */
  lemma EveryText(s: string) returns (dirs: seq<string>, last: string, x: Suffix)
    ensures "\\" + Backslashed(s) == Text(dirs, last, x)
    ensures forall i :: 0 <= i < |dirs| ==> Slashless(dirs[i])
    ensures Slashless(last + x.Spelled()) && ':' !in last && (!x.Bare? ==> ':' !in x.name)
  {
    hide Split, Render, SplitOnce, Slashless, Backslashed, Suffix.Spelled;
    var pieces := Split(s);
    RenderSplit(s);
    dirs := pieces[..|pieces| - 1];
    last, x := Suffixed(pieces[|pieces| - 1]);
    assert dirs + [pieces[|pieces| - 1]] == pieces;
  }

  lemma Suffixed(end: string) returns (last: string, x: Suffix)
    ensures last + x.Spelled() == end && ':' !in last && (!x.Bare? ==> ':' !in x.name)
  {
    hide SplitOnce;
    match SplitOnce(end, ':')
    case None =>
      last, x := end, Bare;
    case Some((name, rest)) =>
      last := name;
      match SplitOnce(rest, ':')
      case None =>
        x := Stream(rest);
      case Some((stream, kind)) =>
        x := Typed(stream, kind);
  }

  lemma {:induction false} RenderSplit(s: string)
    ensures Render(Split(s)) == Backslashed(s)
    ensures forall i :: 0 <= i < |Split(s)| ==> Slashless(Split(s)[i])
  {
    hide Slashless;
    EmptyIsSlashless();
    if s == "" {
      assert Backslashed(s) == "";
    } else {
      RenderSplit(s[1..]);
      var more := Split(s[1..]);
      assert Backslashed(s) == [if s[0] == '/' then '\\' else s[0]] + Backslashed(s[1..]);
      if IsSeparator(s[0]) {
        RenderFirst("", more);
        assert Split(s) == [""] + more;
      } else {
        RenderLonger(s[0], more);
        SlashlessAround([s[0]], more[0]);
        SlashlessOne(s[0]);
        assert Split(s) == [[s[0]] + more[0]] + more[1..];
      }
    }
  }

  lemma EmptyIsSlashless()
    ensures Slashless("")
  {
  }

  lemma SlashlessOne(c: char)
    requires !IsSeparator(c)
    ensures Slashless([c])
  {
  }

  lemma RenderFirst(first: string, more: seq<string>)
    requires more != []
    ensures Render([first] + more) == first + "\\" + Render(more)
  {
    assert ([first] + more)[1..] == more;
  }

  lemma RenderLonger(c: char, more: seq<string>)
    requires more != []
    ensures Render([[c] + more[0]] + more[1..]) == [c] + Render(more)
  {
    var longer := [[c] + more[0]] + more[1..];
    assert longer[1..] == more[1..];
  }

  lemma {:induction false} ForbiddenInText(pieces: seq<string>)
    requires pieces != []
    ensures HasForbidden(Render(pieces)) <==> exists i :: 0 <= i < |pieces| && HasForbidden(pieces[i])
  {
    hide HasForbidden;
    if |pieces| > 1 {
      var rest := pieces[1..];
      ForbiddenInText(rest);
      ForbiddenOnes('\\');
      ForbiddenAround(pieces[0], "\\" + Render(rest));
      ForbiddenAround("\\", Render(rest));
      assert Render(pieces) == pieces[0] + ("\\" + Render(rest));
      ForbiddenSlash();
      if i :| 0 <= i < |rest| && HasForbidden(rest[i]) {
        assert HasForbidden(pieces[i + 1]);
      }
      if i :| 0 <= i < |pieces| && HasForbidden(pieces[i]) {
        assert i > 0 ==> HasForbidden(rest[i - 1]);
      }
    } else {
      assert HasForbidden(pieces[0]) <==> HasForbidden(Render(pieces));
    }
  }

  lemma ForbiddenSlash()
    ensures !HasForbidden("\\")
  {
    ForbiddenOnes('\\');
  }

  lemma ForbiddenAround(a: string, b: string)
    ensures HasForbidden(a + b) <==> HasForbidden(a) || HasForbidden(b)
  {
    if i :| 0 <= i < |a| && IsForbidden(a[i]) {
      assert IsForbidden((a + b)[i]);
    }
    if i :| 0 <= i < |b| && IsForbidden(b[i]) {
      assert IsForbidden((a + b)[|a| + i]);
    }
  }

  lemma HarmlessHasNone(s: string)
    requires Harmless(s)
    ensures !HasForbidden(s) && ':' !in s
  {
    if i :| 0 <= i < |s| && IsForbidden(s[i]) {
      ForbiddenOnes(s[i]);
    }
  }

  lemma SafeIsHarmless(s: string)
    requires Slashless(s) && !HasForbidden(s) && ':' !in s
    ensures Harmless(s)
  {
    forall i | 0 <= i < |s|
      ensures s[i] != ':' && s[i] as int >= 32
      ensures s[i] != '<' && s[i] != '>' && s[i] != '"' && s[i] != '|' && s[i] != '?' && s[i] != '*'
    {
      assert s[i] in s && !IsForbidden(s[i]);
      ForbiddenOnes(s[i]);
    }
  }

  lemma DataIsHarmless(kind: string)
    requires Spells(kind, "$DATA")
    ensures Harmless(kind)
  {
  }

  lemma ForbiddenIsNotAccepted(dirs: seq<string>, last: string, x: Suffix, i: nat)
    requires i <= |dirs| && HasForbidden((dirs + [last + x.Spelled()])[i])
    ensures !(AllAcceptable(dirs + [last]) && x.Fits(last))
  {
    hide HasForbidden, Harmless, IsReservedDosName, Spells;
    if AllAcceptable(dirs + [last]) && x.Fits(last) {
      assert Acceptable((dirs + [last])[i]);
      HarmlessHasNone((dirs + [last])[i]);
      assert i == |dirs|;
      SuffixHasNone(last, x);
    }
  }

  lemma SuffixHasNone(last: string, x: Suffix)
    requires x.Fits(last)
    ensures !HasForbidden(x.Spelled())
    ensures HasForbidden(last + x.Spelled()) ==> HasForbidden(last)
  {
    hide HasForbidden, Harmless, Spells;
    ColonIsAllowed();
    ForbiddenAround(last, x.Spelled());
    match x
    case Bare =>
    case Stream(name) =>
      HarmlessHasNone(name);
      ForbiddenAround(":", name);
    case Typed(name, kind) =>
      HarmlessHasNone(name);
      DataIsHarmless(kind);
      HarmlessHasNone(kind);
      ForbiddenAround(":", name);
      ForbiddenAround(":" + name, ":");
      ForbiddenAround(":" + name + ":", kind);
  }

  lemma ColonIsAllowed()
    ensures !HasForbidden(":") && !HasForbidden("")
  {
    ForbiddenOnes(':');
  }

  lemma ColonIsNotAccepted(dirs: seq<string>, last: string)
    requires HasColon(dirs)
    ensures !AllAcceptable(dirs + [last])
  {
    hide Harmless, IsReservedDosName;
    var i :| 0 <= i < |dirs| && ':' in dirs[i];
    if Acceptable(dirs[i]) {
      HarmlessHasNone(dirs[i]);
    }
    assert (dirs + [last])[i] == dirs[i];
  }

  /** Where no forbidden character and no colon stands in a wrong place, every name is harmless. */
  lemma HarmlessNames(dirs: seq<string>, last: string, x: Suffix)
    requires forall i :: 0 <= i < |dirs| ==> Slashless(dirs[i])
    requires Slashless(last + x.Spelled()) && ':' !in last && (!x.Bare? ==> ':' !in x.name)
    requires forall i :: 0 <= i <= |dirs| ==> !HasForbidden((dirs + [last + x.Spelled()])[i])
    requires !HasColon(dirs)
    ensures forall i :: 0 <= i < |dirs| ==> Harmless(dirs[i])
    ensures Harmless(last) && (!x.Bare? ==> Harmless(x.name))
  {
    hide HasForbidden, Harmless;
    forall i | 0 <= i < |dirs|
      ensures Harmless(dirs[i])
    {
      assert (dirs + [last + x.Spelled()])[i] == dirs[i];
      SafeIsHarmless(dirs[i]);
    }
    assert (dirs + [last + x.Spelled()])[|dirs|] == last + x.Spelled();
    ForbiddenAround(last, x.Spelled());
    SlashlessAround(last, x.Spelled());
    SafeIsHarmless(last);
    if !x.Bare? {
      var behind := if x.Stream? then "" else ":" + x.kind;
      assert x.Spelled() == ":" + x.name + behind;
      ForbiddenAround(":" + x.name, behind);
      ForbiddenAround(":", x.name);
      SlashlessAround(":" + x.name, behind);
      SlashlessAround(":", x.name);
      SafeIsHarmless(x.name);
    }
  }

  lemma SlashlessAround(a: string, b: string)
    ensures Slashless(a + b) <==> Slashless(a) && Slashless(b)
  {
    if Slashless(a + b) {
      assert forall i :: 0 <= i < |a| ==> (a + b)[i] == a[i];
      assert forall i :: 0 <= i < |b| ==> (a + b)[|a| + i] == b[i];
    }
  }

  lemma {:induction false} SplitsThere(a: string, c: char, b: string)
    requires c !in a
    ensures SplitOnce(a + [c] + b, c) == Some((a, b))
  {
    var s := a + [c] + b;
    if a == "" {
      assert s == [c] + b;
    } else {
      SplitsThere(a[1..], c, b);
      assert s[1..] == a[1..] + [c] + b;
      assert [a[0]] + a[1..] == a;
    }
  }

  lemma SpellsData(kind: string)
    ensures Upper(kind) == "$DATA" <==> Spells(kind, "$DATA")
  {
    var d := "$DATA";
    if Upper(kind) == d {
      forall i | 0 <= i < |kind|
        ensures Sharing.SameLetter(kind[i], d[i])
      {
        assert Upper(kind)[i] == d[i];
      }
    }
  }

  lemma SelectorMeans(last: string, x: Suffix)
    requires ':' !in last && (!x.Bare? ==> ':' !in x.name)
    ensures SplitStreamSelector(last + x.Spelled()) ==
      if x.Typed? && !Spells(x.kind, "$DATA") then Err(INVALID) else Ok((last, x.Selected()))
    ensures x.Typed? && !Spells(x.kind, "$DATA") ==> !x.Fits(last)
  {
    hide SplitOnce, Upper, Spells, Harmless, SplitStreamSelector;
    match x
    case Bare =>
      assert last + x.Spelled() == last;
      NoSelector(last);
    case Stream(name) =>
      assert last + x.Spelled() == last + [':'] + name;
      StreamSelector(last, name);
    case Typed(name, kind) =>
      assert last + x.Spelled() == last + [':'] + (name + [':'] + kind);
      TypedSelector(last, name, kind);
      SpellsData(kind);
  }

  lemma NoSelector(last: string)
    requires ':' !in last
    ensures SplitStreamSelector(last) == Ok((last, None))
  {
    hide SplitOnce, Upper;
  }

  lemma StreamSelector(last: string, name: string)
    requires ':' !in last && ':' !in name
    ensures SplitStreamSelector(last + [':'] + name) == Ok((last, if name == "" then None else Some(name)))
  {
    hide SplitOnce, Upper;
    SplitsThere(last, ':', name);
  }

  lemma TypedSelector(last: string, name: string, kind: string)
    requires ':' !in last && ':' !in name
    ensures SplitStreamSelector(last + [':'] + (name + [':'] + kind))
         == if Upper(kind) == "$DATA" then Ok((last, if name == "" then None else Some(name))) else Err(INVALID)
  {
    hide SplitOnce, Upper;
    SplitsThere(last, ':', name + [':'] + kind);
    SplitsThere(name, ':', kind);
  }

  lemma {:induction false} CollectMeans(dirs: seq<string>)
    requires forall i :: 0 <= i < |dirs| ==> Harmless(dirs[i])
    ensures Collect(dirs) == if AllAcceptable(dirs) then Ok(Dotless(dirs)) else Err(INVALID)
  {
    hide Harmless;
    if dirs != [] {
      CollectMeans(dirs[1..]);
      DotIsAcceptable();
      FirstAcceptable(dirs);
      hide IsReservedDosName;
      assert [] + Dotless(dirs[1..]) == Dotless(dirs[1..]);
    }
  }

  lemma FirstAcceptable(names: seq<string>)
    requires names != []
    ensures AllAcceptable(names) <==> Acceptable(names[0]) && AllAcceptable(names[1..])
  {
    hide Acceptable;
    if Acceptable(names[0]) && AllAcceptable(names[1..]) {
      assert forall i :: 0 < i < |names| ==> names[i] == names[1..][i - 1];
    }
  }

  lemma LastAcceptable(names: seq<string>, last: string)
    ensures AllAcceptable(names + [last]) <==> AllAcceptable(names) && Acceptable(last)
  {
    hide Acceptable;
    assert (names + [last])[|names|] == last;
    assert forall i :: 0 <= i < |names| ==> (names + [last])[i] == names[i];
  }

  lemma DotIsAcceptable()
    ensures Acceptable(".") && IsReservedDosName(".") == false
  {
    assert Stem(".") == "";
  }

  lemma FinishMeans(dirs: seq<string>, last: string, x: Suffix)
    requires Harmless(last) && (!x.Bare? ==> Harmless(x.name))
    requires x.Typed? ==> Spells(x.kind, "$DATA")
    ensures (if AllAcceptable(dirs) then FinishPath(Dotless(dirs), last, x.Selected()) else Err(INVALID)) ==
      if AllAcceptable(dirs + [last]) && x.Fits(last) then Ok(SmbPath(Dotless(dirs + [last]), x.Selected()))
      else Err(INVALID)
  {
    hide Harmless, IsReservedDosName, Dotless, Spells;
    DotIsAcceptable();
    DotlessSnoc(dirs, last);
    LastAcceptable(dirs, last);
    hide AllAcceptable;
    assert Dotless(dirs) + [] == Dotless(dirs);
  }

  lemma {:induction false} DotlessSnoc(dirs: seq<string>, last: string)
    ensures Dotless(dirs + [last]) == Dotless(dirs) + if last == "." then [] else [last]
  {
    if dirs != [] {
      DotlessSnoc(dirs[1..], last);
      assert (dirs + [last])[1..] == dirs[1..] + [last];
    } else {
      assert (dirs + [last])[1..] == [];
    }
  }

  // ---- reserved names ----

  predicate IsDevice(name: string) {
    exists device :: device in DEVICES && Spells(name, device)
  }

  /** The reserved names are exactly the device names in any case, alone or with an extension. */
  lemma ReservedIff(name: string, ext: string)
    requires '.' !in ext
    ensures IsReservedDosName(name + "." + ext) <==> IsDevice(name)
    ensures '.' !in name ==> (IsReservedDosName(name) <==> IsDevice(name))
  {
    hide Upper, Stem, Spells;
    StemOf(name, ext);
    StemOfPlain(name);
    UpperDevice(name);
    DevicesListed(Upper(name));
  }

  lemma StemOfPlain(name: string)
    ensures '.' !in name ==> Stem(name) == name
  {
  }

  lemma UpperDevice(name: string)
    ensures IsDevice(name) <==> Upper(name) in DEVICES
  {
    hide Spells, DEVICES;
    var u := Upper(name);
    if u in DEVICES {
      SpellsUpper(name);
    }
    if device :| device in DEVICES && Spells(name, device) {
      DeviceIsReservedStem(device);
      UpperSpells(name, device);
    }
  }

  lemma SpellsUpper(name: string)
    ensures Spells(name, Upper(name))
  {
  }

  lemma DevicesListed(u: string)
    ensures u in DEVICES <==> u in {"CON", "PRN", "AUX", "NUL"}
                              || (|u| == 4 && u[..3] in {"COM", "LPT"} && '1' <= u[3] <= '9')
  {
    if u in DEVICES {
      DeviceIsReservedStem(u);
    }
    if |u| == 4 && u[..3] in {"COM", "LPT"} && '1' <= u[3] <= '9' {
      Numbered(u);
    }
  }

  lemma Numbered(u: string)
    requires |u| == 4 && u[..3] in {"COM", "LPT"} && '1' <= u[3] <= '9'
    ensures u in DEVICES
  {
    var port := u[..3];
    assert port[0] == u[0] && port[1] == u[1] && port[2] == u[2];
    if port == "COM" {
      assert || u == "COM1" || u == "COM2" || u == "COM3" || u == "COM4" || u == "COM5" || u == "COM6"
             || u == "COM7" || u == "COM8" || u == "COM9";
    } else {
      assert || u == "LPT1" || u == "LPT2" || u == "LPT3" || u == "LPT4" || u == "LPT5" || u == "LPT6"
             || u == "LPT7" || u == "LPT8" || u == "LPT9";
    }
  }
}
