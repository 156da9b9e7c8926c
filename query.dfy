/** The fetch query of `generateBcMaps` (WebhookListener/businessLogic.js:12-31):
    a fixed-depth query built by splicing a recursive fragment into a
    template at its `{{children}}` placeholder, once per hierarchy level. */
module QueryBuilder {

  /** `maxHierarchyLevel`: the number of splicing rounds. */
  const MaxHierarchyLevel: nat := 4

  /** The placeholder each round replaces. */
  const Placeholder: string := "{{children}}"

  /** The query template after its runs of whitespace are collapsed to one
      space, split at its placeholder. The text is written in short pieces. */
  const TemplateHeadPieces: seq<string> := [
    " { allFactSheets(filter: ",
    "{facetFilters: [{facetKey: ",
    "\"FactSheetTypes\", keys: ",
    "[\"BusinessCapability\"]}, ",
    "{facetKey: \"hierarchyLevel\", ",
    "keys: [\"1\"]}]}, sort: ",
    "[{key: \"level\", order: desc}]) ",
    "{ edges { node { id type ",
    "name description level "
  ]
  const TemplateHead: string := Flatten(TemplateHeadPieces)
  const TemplateTail: string := " } } } } "
  const Template: string := TemplateHead + Placeholder + TemplateTail

  /** `childrenFragment`, split at its one placeholder. */
  const FragmentHeadPieces: seq<string> := [
    "...on BusinessCapability ",
    "{ children:relToChild ",
    "{ edges { node { id ",
    "factSheet { id type name ",
    "description level "
  ]
  const FragmentHead: string := Flatten(FragmentHeadPieces)
  const FragmentTail: string := " } } } } }"
  const ChildrenFragment: string := FragmentHead + Placeholder + FragmentTail

  function Flatten(ps: seq<string>): string
    decreases |ps|
  {
    if ps == [] then [] else ps[0] + Flatten(ps[1..])
  }

  /** `n` copies of `s` back to back. */
  function Repeat(s: string, n: nat): string
    decreases n
  {
    if n == 0 then [] else s + Repeat(s, n - 1)
  }

  /** `pat` occurs in `s` starting at index `i`. */
  predicate MatchAt(s: string, pat: string, i: int) {
    0 <= i && i + |pat| <= |s| && s[i..i + |pat|] == pat
  }

  ghost predicate NoPlaceholder(s: string) {
    forall i :: !MatchAt(s, Placeholder, i)
  }

  /** `String.prototype.replace` with a string pattern: only the first
      occurrence of `pat` is replaced; without one, `s` is returned. */
  function ReplaceFirst(s: string, pat: string, rep: string): string
    decreases |s|
  {
    if MatchAt(s, pat, 0) then rep + s[|pat|..]
    else if s == [] then s
    else [s[0]] + ReplaceFirst(s[1..], pat, rep)
  }

  lemma MatchShift(s: string, pat: string, i: int)
    requires s != [] && 0 <= i
    ensures MatchAt(s[1..], pat, i) <==> MatchAt(s, pat, i + 1)
  {
    if i + 1 + |pat| <= |s| {
      assert s[1..][i..i + |pat|] == s[i + 1..i + 1 + |pat|];
    }
  }

  /** When the first occurrence of `pat` in `a + pat + b` is right after `a`,
      replacing replaces just that occurrence, whatever `b` holds. */
  lemma {:induction false} ReplaceFirstAt(a: string, pat: string, b: string, rep: string)
    requires forall j :: 0 <= j < |a| ==> !MatchAt(a + pat + b, pat, j)
    ensures ReplaceFirst(a + pat + b, pat, rep) == a + rep + b
    decreases |a|
  {
    var s := a + pat + b;
    if a == [] {
      assert s == pat + b && s[..|pat|] == pat;
    } else {
      assert !MatchAt(s, pat, 0);
      assert s[1..] == a[1..] + pat + b;
      forall j | 0 <= j < |a| - 1 ensures !MatchAt(a[1..] + pat + b, pat, j) {
        MatchShift(s, pat, j);
      }
      ReplaceFirstAt(a[1..], pat, b, rep);
      assert s[0] == a[0] && a == [a[0]] + a[1..];
    }
  }

  /** Without an occurrence of `pat`, replacing changes nothing. */
  lemma {:induction false} ReplaceFirstAbsent(s: string, pat: string, rep: string)
    requires forall i :: !MatchAt(s, pat, i)
    ensures ReplaceFirst(s, pat, rep) == s
    decreases |s|
  {
    if s != [] {
      assert !MatchAt(s, pat, 0);
      forall i ensures !MatchAt(s[1..], pat, i) {
        if 0 <= i { MatchShift(s, pat, i); }
      }
      ReplaceFirstAbsent(s[1..], pat, rep);
    }
  }

  /** One round of the `reduce` at line 31: splice `fragment` while
      `level < depth - 1`, and the empty string in the last round. */
  function SpliceLevel(acc: string, fragment: string, level: nat, depth: nat): string {
    ReplaceFirst(acc, Placeholder, if level < depth - 1 then fragment else "")
  }

  /** The `reduce` over the level indices `level`, ..., `depth - 1`. */
  function Fold(acc: string, fragment: string, level: nat, depth: nat): string
    decreases depth - level
  {
    if level >= depth then acc else Fold(SpliceLevel(acc, fragment, level, depth), fragment, level + 1, depth)
  }

  /** The query for `depth` hierarchy levels: `fragment` spliced into `template`. */
  function BuildQuery(template: string, fragment: string, depth: nat): string {
    Fold(template, fragment, 0, depth)
  }

  /** The query the source sends. */
  function Query(): string {
    BuildQuery(Template, ChildrenFragment, MaxHierarchyLevel)
  }

  // ---------------------------------------------------------------------------
  // No two consecutive opening braces, and no opening brace at the end: a
  // property that survives concatenation and excludes the placeholder.

  predicate Safe(s: string) {
    && (forall i :: 0 <= i < |s| - 1 ==> !(s[i] == '{' && s[i + 1] == '{'))
    && (|s| == 0 || s[|s| - 1] != '{')
  }

  lemma SafeConcat(a: string, b: string)
    requires Safe(a) && Safe(b)
    ensures Safe(a + b)
  {
    var s := a + b;
    forall i | 0 <= i < |s| - 1 ensures !(s[i] == '{' && s[i + 1] == '{') {
      if i + 1 < |a| {
        assert s[i] == a[i] && s[i + 1] == a[i + 1];
      } else if i + 1 == |a| {
        assert s[i] == a[|a| - 1];
      } else {
        assert s[i] == b[i - |a|] && s[i + 1] == b[i + 1 - |a|];
      }
    }
  }

  lemma {:induction false} SafeFlatten(ps: seq<string>)
    requires forall i :: 0 <= i < |ps| ==> Safe(ps[i])
    ensures Safe(Flatten(ps))
    decreases |ps|
  {
    if ps != [] {
      SafeFlatten(ps[1..]);
      SafeConcat(ps[0], Flatten(ps[1..]));
    }
  }

  lemma {:induction false} SafeRepeat(s: string, n: nat)
    requires Safe(s)
    ensures Safe(Repeat(s, n))
    decreases n
  {
    if n > 0 {
      SafeRepeat(s, n - 1);
      SafeConcat(s, Repeat(s, n - 1));
    }
  }

  lemma {:induction false} RepeatSnoc(s: string, n: nat)
    ensures Repeat(s, n + 1) == Repeat(s, n) + s
    decreases n
  {
    if n > 0 {
      RepeatSnoc(s, n - 1);
    }
  }

  lemma TemplateHeadSafe()
    ensures Safe(TemplateHead)
  {
    var t := TemplateHeadPieces;
    assert Safe(t[0]); assert Safe(t[1]); assert Safe(t[2]);
    assert Safe(t[3]); assert Safe(t[4]); assert Safe(t[5]);
    assert Safe(t[6]); assert Safe(t[7]); assert Safe(t[8]);
    SafeFlatten(t);
  }

  lemma FragmentHeadSafe()
    ensures Safe(FragmentHead)
  {
    var f := FragmentHeadPieces;
    assert Safe(f[0]); assert Safe(f[1]); assert Safe(f[2]);
    assert Safe(f[3]); assert Safe(f[4]);
    SafeFlatten(f);
  }

  lemma PiecesSafe()
    ensures Safe(TemplateHead) && Safe(TemplateTail) && Safe(FragmentHead) && Safe(FragmentTail)
  {
    TemplateHeadSafe();
    FragmentHeadSafe();
    assert Safe(TemplateTail);
    assert Safe(FragmentTail);
  }

  /** In `a + {{children}} + b` with `a` and `b` safe, the only pair of
      consecutive opening braces starts right after `a`. */
  lemma DoubleBraceOnlyAfterHead(a: string, b: string, i: int)
    requires Safe(a) && Safe(b)
    requires 0 <= i < |a + Placeholder + b| - 1
    requires (a + Placeholder + b)[i] == '{' && (a + Placeholder + b)[i + 1] == '{'
    ensures i == |a|
  {
    var q := "{children}}";
    assert Safe(q);
    assert Placeholder == ['{'] + q;
    SafeConcat(q, b);
    assert a + Placeholder + b == a + ['{'] + (q + b);
  }

  /** `a + {{children}} + b`, with `a` and `b` safe, holds exactly one
      placeholder, right after `a`. */
  lemma {:induction false} OnlyMatch(a: string, b: string, i: int)
    requires Safe(a) && Safe(b)
    ensures MatchAt(a + Placeholder + b, Placeholder, i) <==> i == |a|
  {
    var s := a + Placeholder + b;
    assert s[|a|..|a| + |Placeholder|] == Placeholder;
    if MatchAt(s, Placeholder, i) {
      assert s[i..i + |Placeholder|][0] == s[i] && s[i..i + |Placeholder|][1] == s[i + 1];
      DoubleBraceOnlyAfterHead(a, b, i);
    }
  }

  /** Splicing into `a + {{children}} + b` replaces that one placeholder. */
  lemma SpliceInto(a: string, b: string, rep: string)
    requires Safe(a) && Safe(b)
    ensures ReplaceFirst(a + Placeholder + b, Placeholder, rep) == a + rep + b
  {
    forall j | 0 <= j < |a| ensures !MatchAt(a + Placeholder + b, Placeholder, j) {
      OnlyMatch(a, b, j);
    }
    ReplaceFirstAt(a, Placeholder, b, rep);
  }

  /** The template and the fragment each carry exactly one placeholder. */
  lemma OnePlaceholderEach(i: int)
    ensures MatchAt(Template, Placeholder, i) <==> i == |TemplateHead|
    ensures MatchAt(ChildrenFragment, Placeholder, i) <==> i == |FragmentHead|
  {
    PiecesSafe();
    OnlyMatch(TemplateHead, TemplateTail, i);
    OnlyMatch(FragmentHead, FragmentTail, i);
  }

  /** Round `level` finds its placeholder between the `level` fragment heads
      spliced so far and their tails. */
  lemma SpliceNested(th: string, tt: string, fh: string, ft: string, level: nat, rep: string)
    requires Safe(th) && Safe(tt) && Safe(fh) && Safe(ft)
    ensures ReplaceFirst(th + Repeat(fh, level) + Placeholder + (Repeat(ft, level) + tt), Placeholder, rep)
         == (th + Repeat(fh, level)) + rep + (Repeat(ft, level) + tt)
  {
    SafeRepeat(fh, level);
    SafeRepeat(ft, level);
    SafeConcat(th, Repeat(fh, level));
    SafeConcat(Repeat(ft, level), tt);
    SpliceInto(th + Repeat(fh, level), Repeat(ft, level) + tt, rep);
  }

  /** From round `level` on, the fold completes the nesting of
      `fh + {{children}} + ft` into `th + {{children}} + tt`. */
  lemma {:induction false} FoldFrom(th: string, tt: string, fh: string, ft: string, level: nat, depth: nat)
    requires Safe(th) && Safe(tt) && Safe(fh) && Safe(ft)
    requires level < depth
    ensures Fold(th + Repeat(fh, level) + Placeholder + (Repeat(ft, level) + tt), fh + Placeholder + ft, level, depth)
         == th + Repeat(fh, depth - 1) + Repeat(ft, depth - 1) + tt
    decreases depth - level
  {
    var fragment := fh + Placeholder + ft;
    var acc := th + Repeat(fh, level) + Placeholder + (Repeat(ft, level) + tt);
    var rep := if level < depth - 1 then fragment else "";
    SpliceNested(th, tt, fh, ft, level, rep);
    var next := (th + Repeat(fh, level)) + rep + (Repeat(ft, level) + tt);
    assert Fold(acc, fragment, level, depth) == Fold(next, fragment, level + 1, depth);
    if level < depth - 1 {
      RepeatSnoc(fh, level);
      Regroup(th, Repeat(fh, level), fh, ft, Repeat(ft, level), tt);
      FoldFrom(th, tt, fh, ft, level + 1, depth);
    } else {
      assert next == th + Repeat(fh, level) + Repeat(ft, level) + tt;
    }
  }

  lemma Regroup(x: string, y: string, f: string, g: string, z: string, t: string)
    ensures (x + y) + (f + Placeholder + g) + (z + t) == x + (y + f) + Placeholder + ((g + z) + t)
  {
  }

  lemma NoBracesNoMatch(s: string, i: int)
    requires 0 <= i < |s| - 1 && !(s[i] == '{' && s[i + 1] == '{')
    ensures !MatchAt(s, Placeholder, i)
  {
  }

  lemma SafeHasNoPlaceholder(s: string)
    requires Safe(s)
    ensures NoPlaceholder(s)
  {
    forall i ensures !MatchAt(s, Placeholder, i) {
      if 0 <= i < |s| - 1 {
        NoBracesNoMatch(s, i);
      }
    }

  }

  /** Splicing a one-placeholder fragment into a one-placeholder template for
      `depth >= 1` levels nests the fragment exactly `depth - 1` times and
      leaves no placeholder; with no levels the template is unchanged. */
  lemma BuildQueryShape(th: string, tt: string, fh: string, ft: string, depth: nat)
    requires Safe(th) && Safe(tt) && Safe(fh) && Safe(ft)
    ensures depth == 0 ==> BuildQuery(th + Placeholder + tt, fh + Placeholder + ft, depth) == th + Placeholder + tt
    ensures depth > 0 ==>
      BuildQuery(th + Placeholder + tt, fh + Placeholder + ft, depth) == th + Repeat(fh, depth - 1) + Repeat(ft, depth - 1) + tt
    ensures depth > 0 ==> NoPlaceholder(BuildQuery(th + Placeholder + tt, fh + Placeholder + ft, depth))
  {
    if depth > 0 {
      assert th + Placeholder + tt == th + Repeat(fh, 0) + Placeholder + (Repeat(ft, 0) + tt);
      FoldFrom(th, tt, fh, ft, 0, depth);
      SafeRepeat(fh, depth - 1);
      SafeRepeat(ft, depth - 1);
      SafeConcat(th, Repeat(fh, depth - 1));
      SafeConcat(th + Repeat(fh, depth - 1), Repeat(ft, depth - 1));
      SafeConcat(th + Repeat(fh, depth - 1) + Repeat(ft, depth - 1), tt);
      SafeHasNoPlaceholder(th + Repeat(fh, depth - 1) + Repeat(ft, depth - 1) + tt);
    }
  }

  /** The source's query: the fragment spliced in `MaxHierarchyLevel - 1`
      = 3 times, nested, and no placeholder left. */
  lemma QueryShape()
    ensures Query() == TemplateHead + Repeat(FragmentHead, 3) + Repeat(FragmentTail, 3) + TemplateTail
    ensures NoPlaceholder(Query())
  {
    PiecesSafe();
    BuildQueryShape(TemplateHead, TemplateTail, FragmentHead, FragmentTail, MaxHierarchyLevel);
  }
}
