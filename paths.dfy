/**
 * The POSIX path functions the backup code relies on: `os.path.isabs`,
 * `os.path.join` (two arguments), `os.path.normpath` and `os.path.abspath`,
 * written after Python's `posixpath` module. The current working directory
 * that `abspath` consults is a parameter.
 */
module Paths {

  /** `isabs`: a path is absolute when it starts with a slash. */
  predicate IsAbs(p: string) {
    |p| > 0 && p[0] == '/'
  }

  /**
   * `join(a, b)`: an absolute `b` replaces `a`; otherwise `b` is appended,
   * with a slash in between unless `a` is empty or already ends in one.
   */
  function Join(a: string, b: string): (r: string)
    ensures IsAbs(b) ==> r == b
    ensures !IsAbs(b) ==> |r| >= |a| + |b| && r[..|a|] == a && r[|r| - |b|..] == b
    ensures !IsAbs(b) ==> (|r| == |a| + |b| + 1 <==> a != "" && a[|a| - 1] != '/')
    ensures !IsAbs(b) ==> (|r| == |a| + |b| <==> a == "" || a[|a| - 1] == '/')
    ensures !IsAbs(b) && |r| == |a| + |b| + 1 ==> r[|a|] == '/'
    ensures IsAbs(a) || IsAbs(b) ==> IsAbs(r)
  {
    if IsAbs(b) then b
    else if a == "" || a[|a| - 1] == '/' then a + b
    else a + "/" + b
  }

  /** A path component after normalisation: no slash, not empty, not `.` or `..`. */
  predicate Clean(c: string) {
    c != "" && c != "." && c != ".." && '/' !in c
  }

  /** Index of the last slash of `p`. */
  function LastSlash(p: string): (i: nat)
    requires '/' in p
    ensures i < |p| && p[i] == '/'
    ensures forall j :: i < j < |p| ==> p[j] != '/'
  {
    if p[|p| - 1] == '/' then |p| - 1
    else
      assert '/' in p[..|p| - 1] by {
        var k :| 0 <= k < |p| && p[k] == '/';
        assert p[..|p| - 1][k] == '/';
      }
      LastSlash(p[..|p| - 1])
  }

  /** `p.split('/')`: the pieces between slashes, in order (`""` splits to `[""]`). */
  function Split(p: string): (r: seq<string>)
    ensures |r| >= 1
    ensures forall i :: 0 <= i < |r| ==> '/' !in r[i]
    decreases |p|
  {
    if '/' !in p then [p]
    else
      var i := LastSlash(p);
      var tail := p[i + 1..];
      assert '/' !in tail by {
        forall k | 0 <= k < |tail| ensures tail[k] != '/' {
          assert tail[k] == p[i + 1 + k];
        }
      }
      Split(p[..i]) + [p[i + 1..]]
  }

  /** `'/'.join(cs)`. */
  function JoinSlash(cs: seq<string>): string
  {
    if |cs| == 0 then ""
    else if |cs| == 1 then cs[0]
    else JoinSlash(cs[..|cs| - 1]) + "/" + cs[|cs| - 1]
  }

  /**
   * One iteration of normpath's loop: drop empty and `.` components, let `..`
   * cancel the previous real component, keep a leading `..` only for a
   * relative path, and drop a `..` that would climb above the root.
   */
  function Step(stack: seq<string>, comp: string, rooted: bool): seq<string>
  {
    if comp == "" || comp == "." then stack
    else if comp != ".." || (!rooted && stack == []) || (stack != [] && stack[|stack| - 1] == "..") then stack + [comp]
    else if stack != [] then stack[..|stack| - 1]
    else stack
  }

  /** normpath's loop over all components, left to right. */
  function Fold(comps: seq<string>, rooted: bool): seq<string>
  {
    if comps == [] then [] else Step(Fold(comps[..|comps| - 1], rooted), comps[|comps| - 1], rooted)
  }

  /** POSIX keeps exactly two leading slashes; one, or three and more, become one. */
  function LeadingSlashes(p: string): nat
  {
    if IsAbs(p) then
      (if |p| >= 2 && p[1] == '/' && !(|p| >= 3 && p[2] == '/') then 2 else 1)
    else 0
  }

  function Slashes(k: nat): string
  {
    if k == 0 then "" else if k == 1 then "/" else "//"
  }

  /** `normpath(p)`: never empty (`.` stands for the empty path), and absolute when `p` is. */
  function NormPath(p: string): (r: string)
    ensures r != ""
    ensures IsAbs(p) ==> IsAbs(r)
  {
    if p == "" then "."
    else
      var k := LeadingSlashes(p);
      var r := Slashes(k) + JoinSlash(Fold(Split(p), k > 0));
      if r == "" then "." else r
  }

  /** `abspath(p)` with the working directory `cwd`: absolute whenever `p` or the working directory is. */
  function AbsPath(p: string, cwd: string): (r: string)
    ensures r != ""
    ensures IsAbs(p) || IsAbs(cwd) ==> IsAbs(r)
  {
    if IsAbs(p) then NormPath(p) else NormPath(Join(cwd, p))
  }

  // ---------------------------------------------------------------------
  // Properties
  // ---------------------------------------------------------------------

  /** Every component normpath keeps for a rooted path is clean. */
  lemma {:induction false} FoldRootedClean(comps: seq<string>)
    requires forall i :: 0 <= i < |comps| ==> '/' !in comps[i]
    ensures forall i :: 0 <= i < |Fold(comps, true)| ==> Clean(Fold(comps, true)[i])
  {
    if comps != [] {
      FoldRootedClean(comps[..|comps| - 1]);
    }
  }

  /** The components of normpath's result for an absolute path. */
  lemma NormPathAbsoluteShape(p: string)
    requires IsAbs(p)
    ensures var k := LeadingSlashes(p);
            var cs := Fold(Split(p), true);
            (k == 1 || k == 2) && NormPath(p) == Slashes(k) + JoinSlash(cs) &&
            forall i :: 0 <= i < |cs| ==> Clean(cs[i])
  {
    FoldRootedClean(Split(p));
  }

  lemma LastSlashOf(s: string, c: string)
    requires '/' !in c
    ensures '/' in s + "/" + c
    ensures LastSlash(s + "/" + c) == |s|
  {
    var p := s + "/" + c;
    assert p[|s|] == '/';
    assert forall j :: |s| < j < |p| ==> p[j] == c[j - |s| - 1];
  }

  /** Splitting at slashes undoes joining slash-free components. */
  lemma {:induction false} SplitJoin(cs: seq<string>)
    requires |cs| >= 1
    requires forall i :: 0 <= i < |cs| ==> '/' !in cs[i]
    ensures Split(JoinSlash(cs)) == cs
  {
    if |cs| > 1 {
      var init := cs[..|cs| - 1];
      var s, c := JoinSlash(init), cs[|cs| - 1];
      LastSlashOf(s, c);
      var p := s + "/" + c;
      assert p[..|s|] == s;
      assert p[|s| + 1..] == c;
      SplitJoin(init);
      assert cs == init + [c];
    }
  }

  /** `"/".join([""] + cs)` puts one slash in front of `"/".join(cs)`. */
  lemma {:induction false} JoinSlashRooted(cs: seq<string>)
    requires |cs| >= 1
    ensures JoinSlash([""] + cs) == "/" + JoinSlash(cs)
  {
    var full := [""] + cs;
    assert full[..|full| - 1] == [""] + cs[..|cs| - 1];
    if |cs| > 1 {
      JoinSlashRooted(cs[..|cs| - 1]);
    }
  }

  /** Leading empty components are skipped and clean ones are kept as they are. */
  lemma {:induction false} FoldCleanAfterEmpties(e: seq<string>, cs: seq<string>, rooted: bool)
    requires forall i :: 0 <= i < |e| ==> e[i] == ""
    requires forall i :: 0 <= i < |cs| ==> Clean(cs[i])
    ensures Fold(e + cs, rooted) == cs
  {
    if cs == [] {
      assert e + cs == e;
      if e != [] {
        FoldCleanAfterEmpties(e[..|e| - 1], [], rooted);
        assert e[..|e| - 1] + [] == e[..|e| - 1];
      }
    } else {
      var init := cs[..|cs| - 1];
      assert (e + cs)[..|e + cs| - 1] == e + init;
      FoldCleanAfterEmpties(e, init, rooted);
    }
  }

  /** Normalising the result of normpath of an absolute path changes nothing. */
  lemma NormPathIdempotent(p: string)
    requires IsAbs(p)
    ensures NormPath(NormPath(p)) == NormPath(p)
  {
    NormPathAbsoluteShape(p);
    var k := LeadingSlashes(p);
    var cs := Fold(Split(p), true);
    NormCleanFixed(k, cs);
  }

  /** A rooted path built from clean components is already normal. */
  lemma NormCleanFixed(k: nat, cs: seq<string>)
    requires k == 1 || k == 2
    requires forall i :: 0 <= i < |cs| ==> Clean(cs[i])
    ensures NormPath(Slashes(k) + JoinSlash(cs)) == Slashes(k) + JoinSlash(cs)
  {
    if cs == [] {
      NormRootFixed(k);
      assert Slashes(k) + JoinSlash(cs) == Slashes(k);
    } else if k == 1 {
      NormCleanOneSlash(cs);
    } else {
      NormCleanTwoSlashes(cs);
    }
  }

  /** `/` and `//` are normal. */
  lemma NormRootFixed(k: nat)
    requires k == 1 || k == 2
    ensures NormPath(Slashes(k)) == Slashes(k)
  {
    var comps := if k == 1 then ["", ""] else ["", "", ""];
    assert JoinSlash(["", ""]) == "/";
    assert JoinSlash(["", "", ""]) == JoinSlash(["", ""]) + "/" + "";
    assert JoinSlash(comps) == Slashes(k);
    SplitJoin(comps);
    FoldCleanAfterEmpties(comps, [], true);
    assert comps + [] == comps;
  }

  lemma NormCleanOneSlash(cs: seq<string>)
    requires |cs| >= 1
    requires forall i :: 0 <= i < |cs| ==> Clean(cs[i])
    ensures NormPath("/" + JoinSlash(cs)) == "/" + JoinSlash(cs)
  {
    var r := "/" + JoinSlash(cs);
    OneSlashParts(cs);
    NormOneSlash(r, [""] + cs, cs);
  }

  /** How `/` followed by clean components splits and folds. */
  lemma OneSlashParts(cs: seq<string>)
    requires |cs| >= 1
    requires forall i :: 0 <= i < |cs| ==> Clean(cs[i])
    ensures var r := "/" + JoinSlash(cs);
            IsAbs(r) && LeadingSlashes(r) == 1 && Split(r) == [""] + cs && Fold([""] + cs, true) == cs
  {
    OneLeadingSlash(cs);
    SplitOneSlash(cs);
    FoldCleanAfterEmpties([""], cs, true);
  }

  /** normpath of a path with one leading slash, given its split and its folded components. */
  lemma NormOneSlash(r: string, comps: seq<string>, cs: seq<string>)
    requires IsAbs(r) && LeadingSlashes(r) == 1 && Split(r) == comps && Fold(comps, true) == cs
    ensures NormPath(r) == "/" + JoinSlash(cs)
  {
    NormPathParts(r, comps, cs);
  }

  lemma OneLeadingSlash(cs: seq<string>)
    requires |cs| >= 1 && Clean(cs[0])
    ensures LeadingSlashes("/" + JoinSlash(cs)) == 1
  {
    var r := "/" + JoinSlash(cs);
    JoinSlashFirst(cs);
    assert r[1] == cs[0][0];
  }

  lemma SplitOneSlash(cs: seq<string>)
    requires |cs| >= 1
    requires forall i :: 0 <= i < |cs| ==> Clean(cs[i])
    ensures Split("/" + JoinSlash(cs)) == [""] + cs
  {
    SlashFreeAfterEmpties([""], cs);
    SplitJoin([""] + cs);
    JoinSlashRooted(cs);
  }

  lemma NormCleanTwoSlashes(cs: seq<string>)
    requires |cs| >= 1
    requires forall i :: 0 <= i < |cs| ==> Clean(cs[i])
    ensures NormPath("//" + JoinSlash(cs)) == "//" + JoinSlash(cs)
  {
    var r := "//" + JoinSlash(cs);
    TwoSlashParts(cs);
    NormTwoSlashes(r, ([""] + [""]) + cs, cs);
  }

  /** How `//` followed by clean components splits and folds. */
  lemma TwoSlashParts(cs: seq<string>)
    requires |cs| >= 1
    requires forall i :: 0 <= i < |cs| ==> Clean(cs[i])
    ensures var r := "//" + JoinSlash(cs);
            IsAbs(r) && LeadingSlashes(r) == 2 && Split(r) == ([""] + [""]) + cs && Fold(([""] + [""]) + cs, true) == cs
  {
    TwoLeadingSlashes(cs);
    SplitTwoSlashes(cs);
    FoldTwoEmpties(cs);
  }

  lemma TwoLeadingSlashes(cs: seq<string>)
    requires |cs| >= 1 && Clean(cs[0])
    ensures LeadingSlashes("//" + JoinSlash(cs)) == 2
  {
    var r := "//" + JoinSlash(cs);
    JoinSlashFirst(cs);
    assert r[2] == cs[0][0];
  }

  /** normpath of a path with two leading slashes, given its split and its folded components. */
  lemma NormTwoSlashes(r: string, comps: seq<string>, cs: seq<string>)
    requires IsAbs(r) && LeadingSlashes(r) == 2 && Split(r) == comps && Fold(comps, true) == cs
    ensures NormPath(r) == "//" + JoinSlash(cs)
  {
    NormPathParts(r, comps, cs);
  }

  /** normpath of a rooted path, given its split and its folded components. */
  lemma NormPathParts(p: string, comps: seq<string>, cs: seq<string>)
    requires IsAbs(p) && Split(p) == comps && Fold(comps, true) == cs
    ensures NormPath(p) == Slashes(LeadingSlashes(p)) + JoinSlash(cs)
  {
  }

  lemma FoldTwoEmpties(cs: seq<string>)
    requires forall i :: 0 <= i < |cs| ==> Clean(cs[i])
    ensures Fold(([""] + [""]) + cs, true) == cs
  {
    var e := [""] + [""];
    TwoEmpties();
    FoldCleanAfterEmpties(e, cs, true);
  }

  lemma SplitTwoSlashes(cs: seq<string>)
    requires |cs| >= 1
    requires forall i :: 0 <= i < |cs| ==> Clean(cs[i])
    ensures Split("//" + JoinSlash(cs)) == ([""] + [""]) + cs
  {
    var e := [""] + [""];
    var comps := e + cs;
    TwoEmpties();
    SlashFreeAfterEmpties(e, cs);
    SplitJoin(comps);
    JoinSlashTwoRooted(cs);
  }

  lemma JoinSlashTwoRooted(cs: seq<string>)
    requires |cs| >= 1
    ensures JoinSlash(([""] + [""]) + cs) == "//" + JoinSlash(cs)
  {
    var x := [""] + cs;
    ConsAssoc(cs);
    JoinSlashRooted(x);
    JoinSlashRooted(cs);
    SlashSlash(JoinSlash(cs));
  }

  lemma ConsAssoc(cs: seq<string>)
    ensures ([""] + [""]) + cs == [""] + ([""] + cs)
  {
  }

  lemma SlashSlash(j: string)
    ensures "/" + ("/" + j) == "//" + j
  {
  }

  lemma TwoEmpties()
    ensures forall i :: 0 <= i < |[""] + [""]| ==> ([""] + [""])[i] == ""
  {
  }

  lemma SlashFreeAfterEmpties(e: seq<string>, cs: seq<string>)
    requires forall i :: 0 <= i < |e| ==> e[i] == ""
    requires forall i :: 0 <= i < |cs| ==> Clean(cs[i])
    ensures forall i :: 0 <= i < |e + cs| ==> '/' !in (e + cs)[i]
  {
    forall i | 0 <= i < |e + cs| ensures '/' !in (e + cs)[i] {
      if i >= |e| {
        assert (e + cs)[i] == cs[i - |e|];
      } else {
        assert (e + cs)[i] == e[i];
      }
    }
  }

  /** The joined string starts with the first component when that is non-empty. */
  lemma {:induction false} JoinSlashFirst(cs: seq<string>)
    requires |cs| >= 1 && cs[0] != ""
    ensures |JoinSlash(cs)| > 0 && JoinSlash(cs)[0] == cs[0][0]
  {
    if |cs| > 1 {
      JoinSlashFirst(cs[..|cs| - 1]);
    }
  }

  /** Joining one more component appends a slash and the component. */
  lemma JoinSlashSnoc(cs: seq<string>, c: string)
    requires |cs| >= 1
    ensures JoinSlash(cs + [c]) == JoinSlash(cs) + "/" + c
  {
    assert (cs + [c])[..|cs|] == cs;
  }

  /** normpath's loop takes one more component with one more step. */
  lemma FoldSnoc(cs: seq<string>, c: string, rooted: bool)
    ensures Fold(cs + [c], rooted) == Step(Fold(cs, rooted), c, rooted)
  {
    assert (cs + [c])[..|cs|] == cs;
  }

  /** `"/".join` of three components. */
  lemma JoinSlashThree(a: string, b: string, c: string)
    ensures JoinSlash([a, b, c]) == a + "/" + b + "/" + c
  {
    JoinSlashSnoc([a], b);
    assert [a] + [b] == [a, b];
    JoinSlashSnoc([a, b], c);
    assert [a, b] + [c] == [a, b, c];
  }

  /** `"/".join` of five components. */
  lemma JoinSlashFive(a: string, b: string, c: string, d: string, e: string)
    ensures JoinSlash([a, b, c, d, e]) == a + "/" + b + "/" + c + "/" + d + "/" + e
  {
    JoinSlashThree(a, b, c);
    JoinSlashSnoc([a, b, c], d);
    assert [a, b, c] + [d] == [a, b, c, d];
    JoinSlashSnoc([a, b, c, d], e);
    assert [a, b, c, d] + [e] == [a, b, c, d, e];
  }

  /** normpath's loop drops the root's empty component and a `.` between clean ones. */
  lemma FoldDropsDot(a: string, b: string, c: string)
    requires Clean(a) && Clean(b) && Clean(c)
    ensures Fold(["", a, b, ".", c], true) == [a, b, c]
  {
    FoldSnoc([""], a, true);
    assert [""] + [a] == ["", a];
    FoldSnoc(["", a], b, true);
    assert ["", a] + [b] == ["", a, b];
    FoldSnoc(["", a, b], ".", true);
    assert ["", a, b] + ["."] == ["", a, b, "."];
    FoldSnoc(["", a, b, "."], c, true);
    assert ["", a, b, "."] + [c] == ["", a, b, ".", c];
  }

  /** `"/".join(["", a, b, c])` spelled out. */
  lemma RootedThree(a: string, b: string, c: string)
    ensures "/" + JoinSlash([a, b, c]) == "/" + a + "/" + b + "/" + c
  {
    JoinSlashThree(a, b, c);
    var j := JoinSlash([a, b, c]);
    assert j == a + "/" + b + "/" + c;
  }

  /** The pieces of `/a/b/./c`. */
  lemma DotPathSplit(a: string, b: string, c: string)
    requires Clean(a) && Clean(b) && Clean(c)
    ensures var p := "/" + a + "/" + b + "/./" + c;
            Split(p) == ["", a, b, ".", c] && LeadingSlashes(p) == 1
  {
    var p := "/" + a + "/" + b + "/./" + c;
    var comps := ["", a, b, ".", c];
    JoinSlashFive("", a, b, ".", c);
    assert JoinSlash(comps) == p;
    SplitJoin(comps);
    assert p[1] == a[0];
  }

  /** normpath drops a `.` between clean components of a rooted path. */
  lemma NormDropsDot(a: string, b: string, c: string)
    requires Clean(a) && Clean(b) && Clean(c)
    ensures NormPath("/" + a + "/" + b + "/./" + c) == "/" + a + "/" + b + "/" + c
  {
    var p := "/" + a + "/" + b + "/./" + c;
    DotPathSplit(a, b, c);
    FoldDropsDot(a, b, c);
    NormPathParts(p, ["", a, b, ".", c], [a, b, c]);
    RootedThree(a, b, c);
  }

  /** normpath keeps an absolute path of three clean components as it is. */
  lemma NormKeepsClean(a: string, b: string, c: string)
    requires Clean(a) && Clean(b) && Clean(c)
    ensures NormPath("/" + a + "/" + b + "/" + c) == "/" + a + "/" + b + "/" + c
  {
    NormCleanOneSlash([a, b, c]);
    RootedThree(a, b, c);
  }

  /** A relative `./c` joined onto the rooted `/a/b` normalises to `/a/b/c`. */
  lemma NormJoinDot(base: string, rel: string, a: string, b: string, c: string)
    requires Clean(a) && Clean(b) && Clean(c)
    requires base == "/" + a + "/" + b && rel == "./" + c
    ensures NormPath(Join(base, rel)) == base + "/" + c
  {
    assert Join(base, rel) == "/" + a + "/" + b + "/./" + c;
    NormDropsDot(a, b, c);
  }
}
