/** Device paths: `crates/core/src/path.rs` and `join_device` of `crates/core/src/ops.rs`. */
module Paths {
  import opened Wrappers

  /** The two character classes of the standard library the parser asks about. */
  datatype Classes = Classes(isSpace: char -> bool, isControl: char -> bool)

  ghost predicate LawfulClasses(cs: Classes) {
    !cs.isSpace('/') && !cs.isControl('/') && !cs.isSpace('.')
  }

  ghost function Blank(): (cs: Classes)
    ensures LawfulClasses(cs)
  {
    Classes(c => c == ' ', c => false)
  }

  type Chars = cs: Classes | LawfulClasses(cs) ghost witness Blank()

  datatype DevPath = DevPath(storageRef: string, segments: seq<string>) {
    predicate IsRoot() { storageRef == "" }
  }

  // ---------- string helpers ----------

  function TrimStart(cs: Chars, s: string): string {
    if s != "" && cs.isSpace(s[0]) then TrimStart(cs, s[1..]) else s
  }

  function TrimEnd(cs: Chars, s: string): (r: string)
    ensures r <= s
  {
    if s != "" && cs.isSpace(s[|s| - 1]) then TrimEnd(cs, s[..|s| - 1]) else s
  }

  function Trim(cs: Chars, s: string): string {
    TrimEnd(cs, TrimStart(cs, s))
  }

  /** `str::split('/')`: never empty, and no part holds a slash. */
  function Split(s: string): (parts: seq<string>)
    ensures parts != []
    ensures forall i :: 0 <= i < |parts| ==> '/' !in parts[i]
  {
    if s == "" then [""]
    else if s[0] == '/' then [""] + Split(s[1..])
    else
      var rest := Split(s[1..]);
      [[s[0]] + rest[0]] + rest[1..]
  }

  function Join(parts: seq<string>): string
    requires parts != []
  {
    if |parts| == 1 then parts[0] else parts[0] + "/" + Join(parts[1..])
  }

  lemma {:induction false} SplitOfJoin(parts: seq<string>)
    requires parts != []
    requires forall i :: 0 <= i < |parts| ==> '/' !in parts[i]
    ensures Split(Join(parts)) == parts
    decreases |parts|, |parts[0]|
  {
    var s := Join(parts);
    if parts[0] == "" {
      if |parts| > 1 {
        SplitOfJoin(parts[1..]);
        assert s[1..] == Join(parts[1..]);
      }
    } else {
      var shorter := [parts[0][1..]] + parts[1..];
      assert shorter[1..] == parts[1..];
      SplitOfJoin(shorter);
      assert s[1..] == Join(shorter);
      assert s[0] == parts[0][0];
      assert [s[0]] + shorter[0] == parts[0];
    }
  }

  lemma {:induction false} JoinOfSplit(s: string)
    ensures Join(Split(s)) == s
  {
    if s != "" {
      JoinOfSplit(s[1..]);
      var rest := Split(s[1..]);
      if s[0] == '/' {
        assert Split(s)[1..] == rest;
      } else {
        assert Split(s)[1..] == rest[1..];
      }
      assert s == [s[0]] + s[1..];
    }
  }

  lemma {:induction false} JoinOfSnoc(parts: seq<string>, last: string)
    requires parts != []
    ensures Join(parts + [last]) == Join(parts) + "/" + last
  {
    if |parts| > 1 {
      JoinOfSnoc(parts[1..], last);
      assert (parts + [last])[1..] == parts[1..] + [last];
    } else {
      assert (parts + [last])[1..] == [last];
    }
  }

  // ---------- parsing and printing ----------

  /** What one component must satisfy to survive the checks of the parser. */
  predicate GoodPart(cs: Chars, p: string) {
    && p != ".." && p != "."
    && Trim(cs, p) != ""
    && forall i :: 0 <= i < |p| ==> !cs.isControl(p[i])
  }

  function Parts(cs: Chars, input: string): seq<string> {
    var all := Split(Trim(cs, input));
    var body := if all[0] == "" then all[1..] else all;
    if body != [] && body[|body| - 1] == "" then body[..|body| - 1] else body
  }

  function ParseSpec(cs: Chars, input: string): Result<DevPath> {
    var parts := Parts(cs, input);
    if forall i :: 0 <= i < |parts| ==> GoodPart(cs, parts[i]) then
      Ok(if parts == [] then DevPath("", []) else DevPath(parts[0], parts[1..]))
    else
      Err(InvalidArgument)
  }

  function Components(p: DevPath): seq<string> {
    [p.storageRef] + p.segments
  }

  function DisplaySpec(p: DevPath): string {
    if p.IsRoot() then "/" else "/" + Join(Components(p))
  }

  /** What every parsed path looks like. */
  ghost predicate WellFormed(cs: Chars, p: DevPath) {
    if p.IsRoot() then p.segments == []
    else forall i :: 0 <= i < |Components(p)| ==> GoodPart(cs, Components(p)[i]) && '/' !in Components(p)[i]
  }

  predicate EndsInSpace(cs: Chars, s: string) {
    s != "" && cs.isSpace(s[|s| - 1])
  }

  function Last(p: DevPath): string {
    Components(p)[|p.segments|]
  }

  method Parse(cs: Chars, input: string) returns (r: Result<DevPath>)
    ensures r == ParseSpec(cs, input)
  {
    var parts := Split(Trim(cs, input));
    if parts[0] == "" {
      parts := parts[1..];
    }
    if parts != [] && parts[|parts| - 1] == "" {
      parts := parts[..|parts| - 1];
    }
    for k := 0 to |parts|
      invariant forall i :: 0 <= i < k ==> GoodPart(cs, parts[i])
    {
      if !GoodPart(cs, parts[k]) {
        return Err(InvalidArgument);
      }
    }
    return Ok(if parts == [] then DevPath("", []) else DevPath(parts[0], parts[1..]));
  }

  method Display(p: DevPath) returns (s: string)
    ensures s == DisplaySpec(p)
  {
    if p.IsRoot() {
      return "/";
    }
    s := "/" + p.storageRef;
    for k := 0 to |p.segments|
      invariant s == "/" + Join(Components(p)[..k + 1])
    {
      JoinOfSnoc(Components(p)[..k + 1], p.segments[k]);
      assert Components(p)[..k + 2] == Components(p)[..k + 1] + [p.segments[k]];
      s := s + "/" + p.segments[k];
    }
    assert Components(p)[..|p.segments| + 1] == Components(p);
  }

  lemma EmptyTrim(cs: Chars)
    ensures Trim(cs, "") == ""
  {
  }

  lemma ParsedIsWellFormed(cs: Chars, input: string)
    requires ParseSpec(cs, input).Ok?
    ensures WellFormed(cs, ParseSpec(cs, input).value)
  {
    var parts := Parts(cs, input);
    EmptyTrim(cs);
    if parts != [] {
      assert GoodPart(cs, parts[0]);
      var p := ParseSpec(cs, input).value;
      assert Components(p) == parts;
      var all := Split(Trim(cs, input));
      forall i | 0 <= i < |parts| ensures '/' !in parts[i] {
        assert parts[i] == all[if all[0] == "" then i + 1 else i];
      }
    }
  }

  // ---------- what parses ----------

  ghost predicate AllSpace(cs: Chars, s: string) {
    forall i :: 0 <= i < |s| ==> cs.isSpace(s[i])
  }

  /** `t` is what is left of `s` without the white space around it. */
  ghost predicate Trimmed(cs: Chars, s: string, t: string) {
    && (t != "" ==> !cs.isSpace(t[0]) && !cs.isSpace(t[|t| - 1]))
    && exists a, b :: s == a + t + b && AllSpace(cs, a) && AllSpace(cs, b)
  }

  lemma {:induction false} TrimStartIs(cs: Chars, s: string) returns (a: string)
    ensures s == a + TrimStart(cs, s) && AllSpace(cs, a)
    ensures TrimStart(cs, s) != "" ==> !cs.isSpace(TrimStart(cs, s)[0])
  {
    a := "";
    if s != "" && cs.isSpace(s[0]) {
      var rest := TrimStartIs(cs, s[1..]);
      a := [s[0]] + rest;
    }
  }

  lemma {:induction false} TrimEndIs(cs: Chars, s: string) returns (b: string)
    ensures s == TrimEnd(cs, s) + b && AllSpace(cs, b) && !EndsInSpace(cs, TrimEnd(cs, s))
  {
    b := "";
    if s != "" && cs.isSpace(s[|s| - 1]) {
      var rest := TrimEndIs(cs, s[..|s| - 1]);
      b := rest + [s[|s| - 1]];
    }
  }

  lemma TrimIs(cs: Chars, s: string)
    ensures Trimmed(cs, s, Trim(cs, s))
  {
    var a := TrimStartIs(cs, s);
    var b := TrimEndIs(cs, TrimStart(cs, s));
    assert s == a + Trim(cs, s) + b;
  }

  /** Not blank, not a dot form, without control characters and without a slash. */
  ghost predicate CleanName(cs: Chars, c: string) {
    && c != "." && c != ".." && (exists i :: 0 <= i < |c| && !cs.isSpace(c[i]))
    && forall i :: 0 <= i < |c| ==> !cs.isControl(c[i]) && c[i] != '/'
  }

  lemma GoodPartIsClean(cs: Chars, c: string)
    ensures GoodPart(cs, c) && '/' !in c <==> CleanName(cs, c)
  {
    hide Trim;
    TrimIs(cs, c);
    if Trim(cs, c) != "" {
      var a, b :| c == a + Trim(cs, c) + b && AllSpace(cs, a) && AllSpace(cs, b);
      assert c[|a|] == Trim(cs, c)[0];
    } else {
      var a, b :| c == a + Trim(cs, c) + b && AllSpace(cs, a) && AllSpace(cs, b);
      forall i | 0 <= i < |c|
        ensures cs.isSpace(c[i])
      {
        assert c[i] == if i < |a| then a[i] else b[i - |a|];
      }
    }
    if exists i :: 0 <= i < |c| && !cs.isSpace(c[i]) {
      assert Trim(cs, c) != "";
    }
  }

  /** `t` spells the path: its components between slashes, one more slash before and one more after
      at will. */
  ghost predicate Spells(cs: Chars, t: string, p: DevPath) {
    if p.IsRoot() then p.segments == [] && (t == "" || t == "/")
    else
      && (forall i :: 0 <= i < |Components(p)| ==> CleanName(cs, Components(p)[i]))
      && var body := Join(Components(p));
         t == body || t == "/" + body || t == body + "/" || t == "/" + body + "/"
  }

  /** Any text parses to `p` exactly when, without the white space around it, it spells `p`. */
  lemma ParsesIff(cs: Chars, input: string, p: DevPath)
    ensures ParseSpec(cs, input) == Ok(p) <==> Spells(cs, Trim(cs, input), p)
    ensures ParseSpec(cs, input).Err? ==> ParseSpec(cs, input) == Err(InvalidArgument)
  {
    hide Trim;
    var t := Trim(cs, input);
    if ParseSpec(cs, input) == Ok(p) {
      ParsedSpells(cs, input, p);
    }
    if Spells(cs, t, p) {
      SpelledParses(cs, input, p);
    }
  }

  lemma ParsedSpells(cs: Chars, input: string, p: DevPath)
    requires ParseSpec(cs, input) == Ok(p)
    ensures Spells(cs, Trim(cs, input), p)
  {
    hide Split, Join, Trim, GoodPart, CleanName;
    var all, parts := Split(Trim(cs, input)), Parts(cs, input);
    forall i | 0 <= i < |Components(p)|
      ensures GoodPart(cs, Components(p)[i]) && '/' !in Components(p)[i] ==> CleanName(cs, Components(p)[i])
    {
      GoodPartIsClean(cs, Components(p)[i]);
    }
    ParsedIsWellFormed(cs, input);
    JoinOfSplit(Trim(cs, input));
    JoinSmall();
    SplitParts(cs, input);
    if parts != [] {
      GoodFirst(cs, parts);
      SlashJoins(parts);
      assert Components(p) == parts;
    }
  }

  lemma SplitParts(cs: Chars, input: string)
    ensures var all, parts := Split(Trim(cs, input)), Parts(cs, input);
            if parts == [] then all == [""] || all == ["", ""]
            else all == parts || all == [""] + parts || all == parts + [""] || all == [""] + parts + [""]
  {
    hide Split, Trim;
  }

  lemma JoinSmall()
    ensures Join([""]) == "" && Join(["", ""]) == "/"
  {
    assert ["", ""][1..] == [""];
  }

  lemma SlashJoins(parts: seq<string>)
    requires parts != []
    ensures Join([""] + parts) == "/" + Join(parts)
    ensures Join(parts + [""]) == Join(parts) + "/"
    ensures Join([""] + parts + [""]) == "/" + Join(parts) + "/"
  {
    hide Split;
    assert ([""] + parts)[1..] == parts;
    JoinOfSnoc(parts, "");
    JoinOfSnoc([""] + parts, "");
  }

  lemma SpelledParses(cs: Chars, input: string, p: DevPath)
    requires Spells(cs, Trim(cs, input), p)
    ensures ParseSpec(cs, input) == Ok(p)
  {
    hide Split, Join, Trim, CleanName, GoodPart;
    var t, c := Trim(cs, input), Components(p);
    forall i | 0 <= i < |c|
      ensures CleanName(cs, c[i]) ==> GoodPart(cs, c[i]) && '/' !in c[i]
    {
      GoodPartIsClean(cs, c[i]);
    }
    if p.IsRoot() {
      JoinSmall();
      SplitOfJoin([""]);
      SplitOfJoin(["", ""]);
      assert Parts(cs, input) == [];
    } else {
      GoodFirst(cs, c);
      SpelledParts(cs, input, c);
      assert p == DevPath(c[0], c[1..]);
    }
  }

  lemma SpelledParts(cs: Chars, input: string, c: seq<string>)
    requires c != [] && c[0] != "" && c[|c| - 1] != "" && forall i :: 0 <= i < |c| ==> '/' !in c[i]
    requires var t, body := Trim(cs, input), Join(c); t == body || t == "/" + body || t == body + "/" || t == "/" + body + "/"
    ensures Parts(cs, input) == c
  {
    hide Split, Join, Trim;
    var t, body := Trim(cs, input), Join(c);
    SlashJoins(c);
    if t == body {
      SplitOfJoin(c);
    } else if t == "/" + body {
      SplitOfJoin([""] + c);
      assert ([""] + c)[1..] == c;
    } else if t == body + "/" {
      SplitOfJoin(c + [""]);
      assert (c + [""])[..|c|] == c;
    } else {
      SplitOfJoin([""] + c + [""]);
      assert ([""] + c + [""])[1..] == c + [""] && (c + [""])[..|c|] == c;
    }
  }

  lemma GoodFirst(cs: Chars, c: seq<string>)
    requires c != [] && forall i :: 0 <= i < |c| ==> GoodPart(cs, c[i])
    ensures c[0] != "" && c[|c| - 1] != ""
  {
    EmptyTrim(cs);
  }

  lemma DisplaySplits(cs: Chars, p: DevPath)
    requires WellFormed(cs, p) && !p.IsRoot()
    ensures Split(DisplaySpec(p)) == [""] + Components(p)
    ensures DisplaySpec(p) == Join([""] + Components(p))
  {
    assert ([""] + Components(p))[1..] == Components(p);
    SplitOfJoin([""] + Components(p));
  }

  lemma {:induction false} JoinEndsInLast(parts: seq<string>)
    requires parts != [] && parts[|parts| - 1] != ""
    ensures Join(parts) != ""
    ensures Join(parts)[|Join(parts)| - 1] == parts[|parts| - 1][|parts[|parts| - 1]| - 1]
  {
    if |parts| > 1 {
      JoinEndsInLast(parts[1..]);
    }
  }

  lemma DisplayEnds(cs: Chars, p: DevPath)
    requires WellFormed(cs, p) && !p.IsRoot()
    ensures Last(p) != ""
    ensures DisplaySpec(p)[|DisplaySpec(p)| - 1] == Last(p)[|Last(p)| - 1]
  {
    EmptyTrim(cs);
    assert GoodPart(cs, Components(p)[|p.segments|]);
    JoinEndsInLast(Components(p));
  }

  /** Printing then parsing gives the path back exactly when the last component does not end
      in white space: `parse` trims its input, and only there can it eat into a component. */
  lemma ParseDisplay(cs: Chars, p: DevPath)
    requires WellFormed(cs, p)
    ensures ParseSpec(cs, DisplaySpec(p)) == Ok(p) <==> !EndsInSpace(cs, Last(p))
  {
    var s := DisplaySpec(p);
    if p.IsRoot() {
      assert Split("/") == ["", ""] by {
        assert "/"[1..] == "";
      }
      assert p == DevPath("", []);
    } else {
      DisplayEnds(cs, p);
      DisplaySplits(cs, p);
      EmptyTrim(cs);
      assert s[0] == '/' && TrimStart(cs, s) == s;
      var c := Components(p);
      if !EndsInSpace(cs, Last(p)) {
        assert Trim(cs, s) == s;
        assert ([""] + c)[1..] == c;
        assert GoodPart(cs, c[|c| - 1]);
        assert Parts(cs, s) == c;
      } else {
        var t := Trim(cs, s);
        assert |t| < |s|;
        if ParseSpec(cs, s) == Ok(p) {
          assert Parts(cs, s) == c;
          assert t <= s && (t != "" ==> t[0] == '/');
          ParsedIsAsLong(cs, s, p);
          assert false;
        }
      }
    }
  }

  /** Text that parses to `p` is, once trimmed, at least as long as the print of `p`. */
  lemma ParsedIsAsLong(cs: Chars, s: string, p: DevPath)
    requires WellFormed(cs, p) && !p.IsRoot()
    requires Parts(cs, s) == Components(p) && Split(Trim(cs, s))[0] == ""
    ensures |Trim(cs, s)| >= |DisplaySpec(p)|
  {
    var all := Split(Trim(cs, s));
    var c := Components(p);
    JoinOfSplit(Trim(cs, s));
    DisplaySplits(cs, p);
    if all[|all| - 1] == "" {
      assert all == ([""] + c) + [""];
      JoinOfSnoc([""] + c, "");
    } else {
      assert all == [""] + c;
    }
  }

  // ---------- joining ----------

  function TrimEndSlashes(s: string): string {
    if s != "" && s[|s| - 1] == '/' then TrimEndSlashes(s[..|s| - 1]) else s
  }

  function TrimStartSlashes(s: string): string {
    if s != "" && s[0] == '/' then TrimStartSlashes(s[1..]) else s
  }

  function JoinDevice(base: string, leaf: string): string {
    TrimEndSlashes(base) + "/" + TrimStartSlashes(leaf)
  }

  /** A component that keeps its identity through printing, joining and parsing. */
  predicate GoodComponent(cs: Chars, c: string) {
    GoodPart(cs, c) && '/' !in c && !EndsInSpace(cs, c)
  }

  function Child(p: DevPath, c: string): DevPath {
    DevPath(p.storageRef, p.segments + [c])
  }

  lemma ChildWellFormed(cs: Chars, p: DevPath, c: string)
    requires WellFormed(cs, p) && !p.IsRoot() && GoodComponent(cs, c)
    ensures WellFormed(cs, Child(p, c)) && Last(Child(p, c)) == c && !Child(p, c).IsRoot()
    ensures Components(Child(p, c)) == Components(p) + [c]
  {
    hide GoodPart;
    var q := Child(p, c);
    assert Components(q) == Components(p) + [c];
    forall i | 0 <= i < |Components(q)|
      ensures GoodPart(cs, Components(q)[i]) && '/' !in Components(q)[i]
    {
      if i < |Components(p)| {
        assert Components(q)[i] == Components(p)[i];
      }
    }
  }

  lemma SlashesStay(cs: Chars, p: DevPath, c: string)
    requires WellFormed(cs, p) && !p.IsRoot() && GoodComponent(cs, c)
    ensures TrimEndSlashes(DisplaySpec(p)) == DisplaySpec(p)
    ensures TrimStartSlashes(c) == c
  {
    hide GoodPart, WellFormed;
    EmptyTrim(cs);
    DisplayEnds(cs, p);
    LastHasNoSlash(cs, p);
    GoodPartNotEmpty(cs, c);
    var l := Last(p);
    assert l[|l| - 1] in l && c[0] in c;
  }

  lemma ChildDisplay(cs: Chars, p: DevPath, c: string)
    requires WellFormed(cs, p) && !p.IsRoot() && GoodComponent(cs, c)
    ensures JoinDevice(DisplaySpec(p), c) == DisplaySpec(Child(p, c))
  {
    hide GoodPart, WellFormed, TrimEndSlashes, TrimStartSlashes, Join;
    SlashesStay(cs, p, c);
    JoinOfSnoc(Components(p), c);
    ChildWellFormed(cs, p, c);
    var j := Join(Components(p));
    assert ("/" + j) + "/" + c == "/" + (j + "/" + c);
  }

  lemma LastHasNoSlash(cs: Chars, p: DevPath)
    requires WellFormed(cs, p) && !p.IsRoot()
    ensures '/' !in Last(p)
  {
    assert Components(p)[|p.segments|] == Last(p);
  }

  lemma GoodPartNotEmpty(cs: Chars, c: string)
    requires GoodPart(cs, c)
    ensures c != ""
  {
    EmptyTrim(cs);
  }

  /** `join_device` followed by `parse` appends exactly the component, for every printed path. */
  lemma ParseJoin(cs: Chars, p: DevPath, c: string)
    requires WellFormed(cs, p) && !p.IsRoot() && GoodComponent(cs, c)
    ensures ParseSpec(cs, JoinDevice(DisplaySpec(p), c)) == Ok(Child(p, c))
  {
    ChildDisplay(cs, p, c);
    ChildWellFormed(cs, p, c);
    ParseDisplay(cs, Child(p, c));
  }
}
