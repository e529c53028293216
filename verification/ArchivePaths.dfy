/** The paths a project archive may hold, and their case-folded keys. */
module ArchivePaths {
  import opened Wrappers
  import opened PythonText

  datatype Part = Part(text: string)

  /** A relative POSIX path; the empty one is the current directory. */
  type Path = seq<Part>

  const MAX_PATH := 512

  // ------------------------------------------------------------------ pure paths

  /** The length of the first segment. */
  function Slash(s: string): (k: nat)
    ensures k <= |s| && (k < |s| ==> s[k] == '/') && forall i | 0 <= i < k :: s[i] != '/'
  {
    if s == "" || s[0] == '/' then 0 else 1 + Slash(s[1..])
  }

  /** Empty and dot segments vanish. */
  function Parts(s: string): Path {
    var k := Slash(s);
    var head := s[..k];
    var rest := if k < |s| then Parts(s[k + 1..]) else [];
    if head == "" || head == "." then rest else [Part(head)] + rest
  }

  function Join(p: Path): string
    requires p != []
  {
    if |p| == 1 then p[0].text else p[0].text + "/" + Join(p[1..])
  }

  function Show(p: Path): string {
    if p == [] then "." else Join(p)
  }

  // ------------------------------------------------------------------ accepted paths

  predicate Harmless(s: string) {
    '\\' !in s && forall i | 0 <= i < |s| :: s[i] as int >= 32
  }

  /** The path of an archive entry, or None for an unsafe one. */
  function ArchivePath(value: string): Option<Path> {
    if value == "" || |value| > MAX_PATH || !Harmless(value) || value[0] == '/' then None
    else
      var normalized := if value[|value| - 1] == '/' then value[..|value| - 1] else value;
      var path := Parts(normalized);
      if normalized == "" || Show(path) != normalized
         || exists part | part in path :: part.text in {"", ".", ".."} || ':' in part.text
      then None
      else Some(path)
  }

  /** The entrypoint of a run. */
  function Entrypoint(value: string): Option<Path> {
    if value == "" || IsSpace(value[0]) || IsSpace(value[|value| - 1]) || !Harmless(value) then None
    else
      var path := Parts(value);
      if value[0] == '/' || path == [] || Show(path) != value || value[|value| - 1] == '/'
         || exists part | part in path :: part.text in {".", ".."} || ':' in part.text
      then None
      else Some(path)
  }

  /** One ordinary component: nothing that climbs, splits or names a drive or stream. */
  predicate Plain(part: Part) {
    part.text !in {"", ".", ".."} && '/' !in part.text && ':' !in part.text && Harmless(part.text)
  }

  predicate AllPlain(p: Path) {
    forall part | part in p :: Plain(part)
  }

  lemma {:induction false} PartsHaveNoSlash(s: string)
    requires Harmless(s)
    ensures forall part | part in Parts(s) :: '/' !in part.text && Harmless(part.text)
  {
    var k := Slash(s);
    if k < |s| { PartsHaveNoSlash(s[k + 1..]); }
  }

  lemma {:induction false} JoinSplits(p: Path)
    requires p != [] && AllPlain(p)
    ensures Parts(Join(p)) == p
  {
    var head := p[0].text;
    assert Plain(p[0]);
    if |p| == 1 {
      PartsOfSegment(head, "");
    } else {
      JoinSplits(p[1..]);
      PartsOfSegment(head, Join(p[1..]));
      assert head + "/" + Join(p[1..]) == Join(p);
      assert [Part(head)] + p[1..] == p;
    }
  }

  /** A plain segment, alone or before a slash and the rest. */
  lemma PartsOfSegment(head: string, rest: string)
    requires Plain(Part(head))
    ensures Parts(head) == [Part(head)]
    ensures Parts(head + "/" + rest) == [Part(head)] + Parts(rest)
  {
    assert head[..|head|] == head;
    SlashAt(head, |head|);
    var s := head + "/" + rest;
    assert s[..|head|] == head && s[|head| + 1..] == rest;
    SlashAt(s, |head|);
  }

  lemma {:induction false} SlashAt(s: string, k: nat)
    requires k <= |s| && (k < |s| ==> s[k] == '/') && '/' !in s[..k]
    ensures Slash(s) == k
  {
    if k > 0 {
      assert s[0] in s[..k];
      forall c | c in s[1..][..k - 1] ensures c in s[..k] {
      }
      SlashAt(s[1..], k - 1);
    }
  }

  lemma {:induction false} JoinIsHarmless(p: Path)
    requires p != [] && AllPlain(p)
    ensures Harmless(Join(p)) && Join(p) != "" && Join(p)[0] != '/' && Join(p)[|Join(p)| - 1] != '/'
  {
    assert Plain(p[0]) && p[0].text != "";
    assert p[0].text[0] in p[0].text && p[0].text[|p[0].text| - 1] in p[0].text;
    if |p| > 1 { JoinIsHarmless(p[1..]); }
  }

  /**
    Accepted are exactly the texts of plain paths, with or without one slash at
    the end, and the text of the current directory.
   */
  lemma ArchivePathsExactly(value: string, p: Path)
    ensures ArchivePath(value) == Some(p)
       <==> |value| <= MAX_PATH && AllPlain(p) && (value == Show(p) || value == Show(p) + "/")
  {
    if ArchivePath(value) == Some(p) {
      var normalized := if value[|value| - 1] == '/' then value[..|value| - 1] else value;
      PartsHaveNoSlash(normalized);
      assert value == normalized || value == normalized + "/";
    } else if |value| <= MAX_PATH && AllPlain(p) && (value == Show(p) || value == Show(p) + "/") {
      ShownIsAccepted(value, p);
    }
  }

  lemma ShownIsAccepted(value: string, p: Path)
    requires |value| <= MAX_PATH && AllPlain(p) && (value == Show(p) || value == Show(p) + "/")
    ensures ArchivePath(value) == Some(p)
  {
    var normalized := Show(p);
    if p == [] {
      SlashAt(".", 1);
      assert Parts(".") == [];
    } else {
      JoinSplits(p);
      JoinIsHarmless(p);
    }
    assert value[|value| - 1] == '/' ==> value[..|value| - 1] == normalized;
  }

  // ------------------------------------------------------------------ keys

  /** Case folding, one character at a time. */
  function FoldText(fold: char -> string, s: string): string {
    if s == "" then "" else fold(s[0]) + FoldText(fold, s[1..])
  }

  datatype Folded = Folded(text: string)

  function FoldKey(fold: char -> string, p: Path): Folded {
    Folded(FoldText(fold, Show(p)))
  }

  lemma {:induction false} FoldConcat(fold: char -> string, a: string, b: string)
    ensures FoldText(fold, a + b) == FoldText(fold, a) + FoldText(fold, b)
  {
    if a == "" {
      assert a + b == b;
    } else {
      FoldConcat(fold, a[1..], b);
      FoldFirst(fold, a[0], a[1..] + b);
      assert [a[0]] + (a[1..] + b) == a + b;
      Regroup(fold(a[0]), FoldText(fold, a[1..]), FoldText(fold, b));
    }
  }

  lemma FoldFirst(fold: char -> string, c: char, rest: string)
    ensures FoldText(fold, [c] + rest) == fold(c) + FoldText(fold, rest)
  {
    assert ([c] + rest)[1..] == rest;
  }

  lemma Regroup(x: string, y: string, z: string)
    ensures (x + y) + z == x + (y + z)
  {
  }

  lemma FoldJoin(fold: char -> string, p: Path)
    requires |p| > 1
    ensures FoldText(fold, Join(p)) == FoldText(fold, p[0].text) + FoldText(fold, "/") + FoldText(fold, Join(p[1..]))
  {
    FoldConcat(fold, p[0].text + "/", Join(p[1..]));
    FoldConcat(fold, p[0].text, "/");
  }

  /** Paths whose parts fold alike have one key. */
  lemma {:induction false} KeyFollowsParts(fold: char -> string, p: Path, q: Path)
    requires |p| == |q| && forall i | 0 <= i < |p| :: FoldText(fold, p[i].text) == FoldText(fold, q[i].text)
    ensures FoldKey(fold, p) == FoldKey(fold, q)
  {
    hide FoldText;
    if |p| > 1 {
      KeyFollowsParts(fold, p[1..], q[1..]);
      FoldJoin(fold, p);
      FoldJoin(fold, q);
    }
  }

  lemma {:induction false} UnfoldedText(s: string)
    ensures FoldText(c => [c], s) == s
  {
    if s != "" { UnfoldedText(s[1..]); }
  }

  /** Where no character folds, keys tell apart exactly what the texts tell apart. */
  lemma UnfoldedKeys(p: Path, q: Path)
    ensures FoldKey(c => [c], p) == FoldKey(c => [c], q) <==> Show(p) == Show(q)
  {
    UnfoldedText(Show(p));
    UnfoldedText(Show(q));
  }
}
