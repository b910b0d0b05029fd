/** The patcher of generated `_utilities.py` modules: it splices replacements over the line spans
    of two functions, last span first, with line numbers taken from the original file. */
module PatchSource {
  import opened Wrappers
  import opened Strings

  const MARKER := "generated by crd2pulumi"
  const RESOURCE_DEFAULTS := "get_resource_opts_defaults"
  const INVOKE_DEFAULTS := "get_invoke_opts_defaults"

  datatype Target = Target(packageName: string, exampleToken: string, pluginName: string)

  function DefLine(name: string, result: string): string { "def " + name + "()" + " -> pulumi." + result + ":\n" }

  function Comment(before: string, text: string, after: string): string { "    # " + (before + text + after) + "\n" }

  function ReturnLine(result: string): string { "    return pulumi." + result + "()\n" }

  function ResourceShim(name: string, target: Target): seq<string> {
    [DefLine(name, "ResourceOptions"),
     Comment("crd2pulumi generated this shim as ``", target.packageName, "``, but its"),
     Comment("resource tokens are Kubernetes tokens, for example:", "", ""),
     Comment("``", target.exampleToken, "``."),
     Comment("Attaching shim defaults makes Pulumi try to install the nonexistent", "", ""),
     Comment("``", target.pluginName, "`` provider plugin."),
     ReturnLine("ResourceOptions")]
  }

  function InvokeShim(name: string): seq<string> { [DefLine(name, "InvokeOptions"), ReturnLine("InvokeOptions")] }

  function Replacement(target: Target, function_: string): seq<string> {
    if function_ == RESOURCE_DEFAULTS then ResourceShim(RESOURCE_DEFAULTS, target) else InvokeShim(INVOKE_DEFAULTS)
  }

  /** A module as the parser sees it: its top-level function definitions, and the lines between. */
  datatype Block = Def(name: string, lines: seq<string>) | Other(lines: seq<string>)

  type Document = seq<Block>

  function Text(doc: Document): seq<string> {
    if doc == [] then [] else doc[0].lines + Text(doc[1..])
  }

  /** The function that a name denotes is its last top-level definition. */
  predicate IsLastDef(doc: Document, name: string, i: nat) {
    && i < |doc| && doc[i].Def? && doc[i].name == name
    && forall j :: i < j < |doc| && doc[j].Def? ==> doc[j].name != name
  }

  predicate Defines(doc: Document, name: string) { exists i :: 0 <= i < |doc| && doc[i].Def? && doc[i].name == name }

  function LastDef(doc: Document, name: string): (i: nat)
    requires Defines(doc, name)
    ensures IsLastDef(doc, name, i)
  {
    var n := |doc| - 1;
    if doc[n].Def? && doc[n].name == name then n
    else
      assert Defines(doc[..n], name);
      assert forall j :: 0 <= j < n ==> doc[..n][j] == doc[j];
      LastDef(doc[..n], name)
  }

  /** A span of 1-based line numbers, both ends included. */
  datatype Span = Span(first: int, last: int)

  function SpanOf(doc: Document, i: nat): Span
    requires i < |doc|
  {
    Span(|Text(doc[..i])| + 1, |Text(doc[..i])| + |doc[i].lines|)
  }

  /** The block is the definition that one of the names denotes. */
  predicate Denoted(doc: Document, names: set<string>, i: nat)
    requires i < |doc|
  {
    doc[i].Def? && doc[i].name in names && IsLastDef(doc, doc[i].name, i)
  }

  /** The replacements made all at once, block by block. */
  function Patched(doc: Document, target: Target, names: set<string>): (r: Document)
    ensures |r| == |doc|
  {
    seq(|doc|, i requires 0 <= i < |doc| =>
      if Denoted(doc, names, i) then Def(doc[i].name, Replacement(target, doc[i].name)) else doc[i])
  }

  predicate Marked(lines: seq<string>) { exists i :: 0 <= i < 5 && i < |lines| && Occurs(MARKER, lines[i]) }

  datatype Error = MissingMarker | MissingFunctions(names: set<string>)

  const FUNCTION_NAMES: set<string> := {RESOURCE_DEFAULTS, INVOKE_DEFAULTS}

  function Missing(doc: Document): set<string> { set n | n in FUNCTION_NAMES && !Defines(doc, n) }

  /** What patching a module gives. */
  function PatchResult(doc: Document, target: Target): Result<seq<string>, Error> {
    if !Marked(Text(doc)) then Failure(MissingMarker)
    else if Missing(doc) != {} then Failure(MissingFunctions(Missing(doc)))
    else Success(Text(Patched(doc, target, FUNCTION_NAMES)))
  }

  predicate IsComment(line: string) { "    # " <= line }

  predicate IsDefOf(name: string, line: string) { "def " + name + "()" <= line }

  predicate Returns(result: string, line: string) { line == "    return pulumi." + result + "()\n" }

  predicate IsResourceShim(lines: seq<string>, name: string, target: Target) {
    && |lines| == 7 && IsDefOf(name, lines[0]) && Returns("ResourceOptions", lines[6])
    && (forall i :: 0 < i < 6 ==> IsComment(lines[i]))
    && Occurs(target.packageName, lines[1]) && Occurs(target.exampleToken, lines[3])
    && Occurs(target.pluginName, lines[5])
  }

  predicate IsInvokeShim(lines: seq<string>, name: string) {
    |lines| == 2 && IsDefOf(name, lines[0]) && Returns("InvokeOptions", lines[1])
  }

  lemma ShimsAre(name: string, target: Target)
    ensures IsResourceShim(ResourceShim(name, target), name, target) && IsInvokeShim(InvokeShim(name), name)
  {
    hide Occurs, DefLine, Comment, IsDefOf, IsComment;
    DefLineDefines(name, "ResourceOptions");
    DefLineDefines(name, "InvokeOptions");
    CommentHolds("crd2pulumi generated this shim as ``", target.packageName, "``, but its");
    CommentHolds("resource tokens are Kubernetes tokens, for example:", "", "");
    CommentHolds("``", target.exampleToken, "``.");
    CommentHolds("Attaching shim defaults makes Pulumi try to install the nonexistent", "", "");
    CommentHolds("``", target.pluginName, "`` provider plugin.");
  }

  /** What a replacement says: it defines the very function that it replaces, with nothing for a body but
      comments, those of the resources with the three texts of the target in them, and the return of
      fresh options of its kind. */
  lemma ReplacementDefines(target: Target)
    ensures IsResourceShim(Replacement(target, "get_resource_opts_defaults"), "get_resource_opts_defaults", target)
    ensures IsInvokeShim(Replacement(target, "get_invoke_opts_defaults"), "get_invoke_opts_defaults")
  {
    hide ResourceShim, InvokeShim, IsResourceShim, IsInvokeShim;
    assert |RESOURCE_DEFAULTS| != |INVOKE_DEFAULTS|;
    ShimsAre(RESOURCE_DEFAULTS, target);
    ShimsAre(INVOKE_DEFAULTS, target);
  }

  lemma DefLineDefines(name: string, result: string)
    ensures IsDefOf(name, DefLine(name, result))
  {
    var start := "def " + name + "()";
    assert DefLine(name, result) == start + (" -> pulumi." + result + ":\n");
  }

  lemma CommentHolds(before: string, text: string, after: string)
    ensures IsComment(Comment(before, text, after)) && Occurs(text, Comment(before, text, after))
  {
    var start := "    # " + before;
    assert Comment(before, text, after) == start + text + (after + "\n");
    assert OccursAt(text, Comment(before, text, after), |start|);
  }

  /** One of the first five lines has the generator's mark. */
  ghost predicate HasMark(lines: seq<string>) {
    exists i :: 0 <= i < 5 && i < |lines| && Occurs("generated by crd2pulumi", lines[i])
  }

  predicate HasDef(doc: Document, name: string) { exists b :: b in doc && b.Def? && b.name == name }

  lemma DefinesIs(doc: Document, name: string)
    ensures Defines(doc, name) <==> HasDef(doc, name)
  {
    if i :| 0 <= i < |doc| && doc[i].Def? && doc[i].name == name { assert doc[i] in doc; }
  }

  lemma MarkedIs(lines: seq<string>)
    ensures Marked(lines) <==> HasMark(lines)
  {
    assert MARKER == "generated by crd2pulumi";
    hide Occurs;
    if i :| 0 <= i < 5 && i < |lines| && Occurs("generated by crd2pulumi", lines[i]) {
      assert Occurs(MARKER, lines[i]);
    }
  }

  /** When the patcher refuses a module: without the generator's mark, or else without a definition of
      one of the two functions. */
  lemma RefusedExactly(doc: Document, target: Target)
    ensures var lines, r := Text(doc), PatchResult(doc, target);
            var resource, invoke := "get_resource_opts_defaults", "get_invoke_opts_defaults";
            && (r == Failure(MissingMarker) <==> !HasMark(lines))
            && (r.Success? ==> HasDef(doc, resource) && HasDef(doc, invoke))
            && (r.Failure? && r.error.MissingFunctions? ==>
                  && r.error.names != {}
                  && forall n :: n in r.error.names <==> (n == resource || n == invoke) && !HasDef(doc, n))
  {
    MarkedIs(Text(doc));
    forall n ensures Defines(doc, n) <==> HasDef(doc, n) { DefinesIs(doc, n); }
    hide Text, Patched, Defines, Occurs, Marked, HasMark, HasDef;
    assert FUNCTION_NAMES == {"get_resource_opts_defaults", "get_invoke_opts_defaults"};
    assert forall n :: n in FUNCTION_NAMES <==> n in Missing(doc) || (n in FUNCTION_NAMES && Defines(doc, n));
  }

  lemma {:induction false} TextOfConcat(a: Document, b: Document)
    ensures Text(a + b) == Text(a) + Text(b)
  {
    if a == [] {
      assert a + b == b;
    } else {
      assert (a + b)[1..] == a[1..] + b;
      TextOfConcat(a[1..], b);
    }
  }

  lemma TextAround(doc: Document, i: nat)
    requires i < |doc|
    ensures Text(doc) == Text(doc[..i]) + doc[i].lines + Text(doc[i + 1..])
  {
    assert doc == doc[..i] + doc[i..];
    TextOfConcat(doc[..i], doc[i..]);
    assert doc[i..][1..] == doc[i + 1..];
    assert Text(doc[i..]) == doc[i].lines + Text(doc[i + 1..]);
  }

  lemma PatchedElsewhere(doc: Document, target: Target, done: set<string>, name: string)
    requires Defines(doc, name) && name !in done
    requires forall n :: n in done ==> Defines(doc, n) && LastDef(doc, name) < LastDef(doc, n)
    ensures var i, before, after := LastDef(doc, name), Patched(doc, target, done), Patched(doc, target, done + {name});
            && before[..i] == doc[..i] == after[..i] && before[i + 1..] == after[i + 1..]
            && before[i] == doc[i] && after[i].lines == Replacement(target, name)
  {
    hide Replacement;
    var i := LastDef(doc, name);
    var before, after := Patched(doc, target, done), Patched(doc, target, done + {name});
    forall j | 0 <= j <= i ensures before[j] == doc[j] {
      assert doc[j].Def? && doc[j].name in done ==> j < LastDef(doc, doc[j].name);
    }
    forall j | 0 <= j < |doc| && j != i ensures after[j] == before[j] { }
  }

  /** Splicing one more span, placed before all those already replaced, replaces its block. */
  lemma SpliceOne(doc: Document, target: Target, done: set<string>, name: string)
    requires Defines(doc, name) && name !in done
    requires forall n :: n in done ==> Defines(doc, n) && LastDef(doc, name) < LastDef(doc, n)
    ensures var span, lines := SpanOf(doc, LastDef(doc, name)), Text(Patched(doc, target, done));
            && 0 <= span.first - 1 <= span.last <= |lines|
            && lines[..span.first - 1] + Replacement(target, name) + lines[span.last..]
               == Text(Patched(doc, target, done + {name}))
  {
    hide Replacement, Patched, LastDef, Text, Defines;
    var i := LastDef(doc, name);
    var before, after := Patched(doc, target, done), Patched(doc, target, done + {name});
    PatchedElsewhere(doc, target, done, name);
    TextAround(before, i);
    TextAround(after, i);
    var front, back := Text(doc[..i]), Text(before[i + 1..]);
    assert (front + doc[i].lines + back)[..|front|] == front;
    assert (front + doc[i].lines + back)[|front| + |doc[i].lines|..] == back;
  }

  /* ----- What survives ----- */

  /** How many lines the replacements before a block add, or take away when negative. */
  function Growth(doc: Document, target: Target, i: nat): int
    requires i <= |doc|
  {
    if i == 0 then 0
    else
      Growth(doc, target, i - 1)
      + if Denoted(doc, FUNCTION_NAMES, i - 1) then |Replacement(target, doc[i - 1].name)| - |doc[i - 1].lines| else 0
  }

  lemma TextOfNext(doc: Document, i: nat)
    requires 0 < i <= |doc|
    ensures Text(doc[..i]) == Text(doc[..i - 1]) + doc[i - 1].lines
  {
    assert doc[..i] == doc[..i - 1] + [doc[i - 1]];
    TextOfConcat(doc[..i - 1], [doc[i - 1]]);
    assert [doc[i - 1]][1..] == [];
  }

  lemma PatchedBlock(doc: Document, target: Target, i: nat)
    requires i < |doc|
    ensures Patched(doc, target, FUNCTION_NAMES)[i].lines
            == if Denoted(doc, FUNCTION_NAMES, i) then Replacement(target, doc[i].name) else doc[i].lines
  {
    hide Replacement, Denoted;
  }

  lemma {:induction false} PatchedOffset(doc: Document, target: Target, i: nat)
    requires i <= |doc|
    ensures |Text(Patched(doc, target, FUNCTION_NAMES)[..i])| == |Text(doc[..i])| + Growth(doc, target, i)
  {
    hide Replacement, Patched, Denoted;
    var once := Patched(doc, target, FUNCTION_NAMES);
    if i == 0 {
      NoLines(doc);
      NoLines(once);
    } else {
      PatchedOffset(doc, target, i - 1);
      TextOfNext(doc, i);
      TextOfNext(once, i);
      PatchedBlock(doc, target, i - 1);
    }
  }

  lemma NoLines(doc: Document)
    ensures Text(doc[..0]) == []
  {
  }

  lemma LineOfBlock(doc: Document, i: nat, l: nat)
    requires i < |doc| && l < |doc[i].lines|
    ensures |Text(doc[..i])| + l < |Text(doc)| && Text(doc)[|Text(doc[..i])| + l] == doc[i].lines[l]
  {
    TextAround(doc, i);
    hide Text;
  }

  /** Every line outside the two functions survives, moved by just what the replacements before it
      add. */
  lemma OutsideLinesSurvive(doc: Document, target: Target, i: nat, l: nat)
    requires i < |doc| && l < |doc[i].lines| && !Denoted(doc, FUNCTION_NAMES, i)
    ensures var once, line := Patched(doc, target, FUNCTION_NAMES), |Text(doc[..i])| + l;
            && line < |Text(doc)| && Text(doc)[line] == doc[i].lines[l]
            && 0 <= line + Growth(doc, target, i) < |Text(once)|
            && Text(once)[line + Growth(doc, target, i)] == Text(doc)[line]
  {
    hide Replacement, Patched, Denoted, Text, Growth;
    PatchedBlock(doc, target, i);
    PatchedOffset(doc, target, i);
    LineOfBlock(doc, i, l);
    LineOfBlock(Patched(doc, target, FUNCTION_NAMES), i, l);
  }

  lemma {:induction false} TextGrows(doc: Document, i: nat, j: nat)
    requires i <= j <= |doc|
    ensures |Text(doc[..i])| <= |Text(doc[..j])|
  {
    if i < j {
      TextGrows(doc, i, j - 1);
      TextOfNext(doc, j);
      hide Text;
    }
  }

  /** The surviving lines keep their order. */
  lemma OutsideLinesKeepOrder(doc: Document, target: Target, i: nat, l: nat, j: nat, m: nat)
    requires i < |doc| && l < |doc[i].lines| && !Denoted(doc, FUNCTION_NAMES, i)
    requires j < |doc| && m < |doc[j].lines| && !Denoted(doc, FUNCTION_NAMES, j)
    ensures |Text(doc[..i])| + l < |Text(doc[..j])| + m <==>
            |Text(doc[..i])| + l + Growth(doc, target, i) < |Text(doc[..j])| + m + Growth(doc, target, j)
  {
    hide Replacement, Patched, Denoted, Text, Growth;
    var once := Patched(doc, target, FUNCTION_NAMES);
    PatchedOffset(doc, target, i);
    PatchedOffset(doc, target, j);
    PatchedBlock(doc, target, i);
    PatchedBlock(doc, target, j);
    if i < j { LaterBlockLaterLine(doc, i, l, j); LaterBlockLaterLine(once, i, l, j); }
    if j < i { LaterBlockLaterLine(doc, j, m, i); LaterBlockLaterLine(once, j, m, i); }
  }

  lemma LaterBlockLaterLine(doc: Document, i: nat, l: nat, j: nat)
    requires i < j < |doc| && l < |doc[i].lines|
    ensures |Text(doc[..i])| + l < |Text(doc[..j])|
  {
    TextOfNext(doc, i + 1);
    TextGrows(doc, i + 1, j);
  }

  /** A definition takes at least its own line. */
  predicate WellFormed(doc: Document) { forall i :: 0 <= i < |doc| && doc[i].Def? ==> doc[i].lines != [] }

  lemma LaterDefLaterLine(doc: Document, i: nat, j: nat)
    requires WellFormed(doc) && i < j < |doc| && doc[i].Def?
    ensures SpanOf(doc, i).last < SpanOf(doc, j).first && SpanOf(doc, i).first < SpanOf(doc, j).first
  {
    TextAround(doc[..j], i);
    assert doc[..j][..i] == doc[..i];
  }

  predicate Descending(doc: Document, order: seq<string>) {
    && (forall n :: n in order ==> Defines(doc, n))
    && forall a, b :: 0 <= a < b < |order| ==> LastDef(doc, order[b]) < LastDef(doc, order[a])
  }

  lemma DoneStandsLater(doc: Document, order: seq<string>, k: nat)
    requires Descending(doc, order) && k < |order|
    ensures Defines(doc, order[k]) && order[k] !in order[..k]
    ensures forall n :: n in order[..k] ==> Defines(doc, n) && LastDef(doc, order[k]) < LastDef(doc, n)
  {
    hide LastDef, Defines;
    assert order[k] in order;
    forall n | n in order[..k] ensures Defines(doc, n) && LastDef(doc, order[k]) < LastDef(doc, n) {
      var a :| 0 <= a < k && order[a] == n;
    }
  }

  function Upto(order: seq<string>, k: nat): set<string>
    requires k <= |order|
  {
    set n | n in order[..k]
  }

  lemma NothingPatched(doc: Document, target: Target)
    ensures Patched(doc, target, {}) == doc
  {
    hide Replacement;
  }

  /** The loop that splices the list of lines in place, given the spans of the original file. */
  method SpliceInOrder(doc: Document, target: Target, order: seq<string>) returns (lines: seq<string>)
    requires Descending(doc, order)
    ensures lines == Text(Patched(doc, target, Upto(order, |order|)))
  {
    hide Replacement, Patched, Text, SpanOf, Descending, Defines, LastDef;
    NothingPatched(doc, target);
    assert Upto(order, 0) == {};
    lines := Text(doc);
    for k := 0 to |order|
      invariant lines == Text(Patched(doc, target, Upto(order, k)))
    {
      var name := order[k];
      DoneStandsLater(doc, order, k);
      var span := SpanOf(doc, LastDef(doc, name));
      SpliceOne(doc, target, Upto(order, k), name);
      lines := lines[..span.first - 1] + Replacement(target, name) + lines[span.last..];
      assert order[..k + 1] == order[..k] + [name];
      assert Upto(order, k + 1) == Upto(order, k) + {name};
    }
  }

  method Patch(doc: Document, target: Target) returns (r: Result<seq<string>, Error>)
    requires WellFormed(doc)
    ensures r == PatchResult(doc, target)
  {
    hide Patched, Text, Marked, Defines;
    if !Marked(Text(doc)) { return Failure(MissingMarker); }
    if Missing(doc) != {} { return Failure(MissingFunctions(Missing(doc))); }
    assert forall n :: n in FUNCTION_NAMES ==> n !in Missing(doc);
    assert RESOURCE_DEFAULTS in FUNCTION_NAMES && INVOKE_DEFAULTS in FUNCTION_NAMES;
    var a, b := LastDef(doc, RESOURCE_DEFAULTS), LastDef(doc, INVOKE_DEFAULTS);
    assert a != b by { assert |RESOURCE_DEFAULTS| != |INVOKE_DEFAULTS|; }
    var order := [RESOURCE_DEFAULTS, INVOKE_DEFAULTS];
    if a < b { LaterDefLaterLine(doc, a, b); } else { LaterDefLaterLine(doc, b, a); }
    if SpanOf(doc, a).first < SpanOf(doc, b).first {
      order := [INVOKE_DEFAULTS, RESOURCE_DEFAULTS];
    }
    var lines := SpliceInOrder(doc, target, order);
    assert order[..|order|] == order;
    assert Upto(order, |order|) == FUNCTION_NAMES;
    r := Success(lines);
  }

  /* ----- Patching twice ----- */

  lemma PatchedKeepsDefs(doc: Document, target: Target, name: string, i: nat)
    requires i < |doc|
    ensures IsLastDef(Patched(doc, target, FUNCTION_NAMES), name, i) <==> IsLastDef(doc, name, i)
  {
    var after := Patched(doc, target, FUNCTION_NAMES);
    assert forall j :: 0 <= j < |doc| ==>
        after[j].Def? == doc[j].Def? && (doc[j].Def? ==> after[j].name == doc[j].name);
  }

  lemma PatchedTwice(doc: Document, target: Target)
    ensures Patched(Patched(doc, target, FUNCTION_NAMES), target, FUNCTION_NAMES)
                == Patched(doc, target, FUNCTION_NAMES)
  {
    var once := Patched(doc, target, FUNCTION_NAMES);
    var twice := Patched(once, target, FUNCTION_NAMES);
    forall i | 0 <= i < |doc| ensures twice[i] == once[i] {
      if doc[i].Def? { PatchedKeepsDefs(doc, target, doc[i].name, i); }
    }
  }

  lemma PatchedDefines(doc: Document, target: Target, name: string)
    ensures Defines(Patched(doc, target, FUNCTION_NAMES), name) <==> Defines(doc, name)
  {
    var after := Patched(doc, target, FUNCTION_NAMES);
    forall i | 0 <= i < |doc| ensures after[i].Def? == doc[i].Def? && (doc[i].Def? ==> after[i].name == doc[i].name) { }
  }

  /** Patching a patched module changes nothing exactly when the marker is still within the first
      five lines; when it is not, the second pass refuses the file. */
  lemma PatchingIsIdempotent(doc: Document, target: Target)
    requires PatchResult(doc, target).Success?
    ensures var once := Patched(doc, target, FUNCTION_NAMES);
            && PatchResult(doc, target) == Success(Text(once))
            && PatchResult(once, target) == if Marked(Text(once)) then Success(Text(once)) else Failure(MissingMarker)
  {
    hide Patched, Text, Marked;
    PatchedTwice(doc, target);
    assert forall n :: n in FUNCTION_NAMES ==> n !in Missing(doc);
    forall n | n in FUNCTION_NAMES ensures Defines(Patched(doc, target, FUNCTION_NAMES), n) {
      PatchedDefines(doc, target, n);
    }
  }

  /** A line with the marker, outside the two functions, that the patched text has among its first
      five lines. */
  predicate MarkerStays(doc: Document, target: Target, i: nat, l: nat) {
    && i < |doc| && l < |doc[i].lines| && !Denoted(doc, FUNCTION_NAMES, i)
    && |Text(doc[..i])| + l + Growth(doc, target, i) < 5 && Occurs(MARKER, doc[i].lines[l])
  }

  /** No line that the patcher writes holds the marker. */
  predicate Unmarked(target: Target) {
    forall n, l :: n in FUNCTION_NAMES && l in Replacement(target, n) ==> !Occurs(MARKER, l)
  }

  lemma {:induction false} BlockOfLine(doc: Document, q: nat, k: nat) returns (i: nat, l: nat)
    requires k <= |doc| && q < |Text(doc[..k])|
    ensures i < |doc| && l < |doc[i].lines| && q == |Text(doc[..i])| + l
  {
    hide Text;
    NoLines(doc);
    TextOfNext(doc, k);
    if |Text(doc[..k - 1])| <= q {
      i, l := k - 1, q - |Text(doc[..k - 1])|;
    } else {
      i, l := BlockOfLine(doc, q, k - 1);
    }
  }

  lemma WrittenLineIsUnmarked(doc: Document, target: Target, i: nat, l: nat)
    requires Unmarked(target) && i < |doc| && Denoted(doc, FUNCTION_NAMES, i)
    requires l < |Patched(doc, target, FUNCTION_NAMES)[i].lines|
    ensures !Occurs(MARKER, Patched(doc, target, FUNCTION_NAMES)[i].lines[l])
  {
    hide Replacement, Patched, Occurs;
    PatchedBlock(doc, target, i);
  }

  /** The second pass accepts what the first one wrote exactly when some line of the original, outside
      the two functions, holds the marker and is not moved beyond the first five lines. */
  lemma SecondPassExactly(doc: Document, target: Target)
    requires PatchResult(doc, target).Success? && Unmarked(target)
    ensures var once := Patched(doc, target, FUNCTION_NAMES);
            PatchResult(once, target) == PatchResult(doc, target) <==> exists i, l :: MarkerStays(doc, target, i, l)
  {
    hide Replacement, Patched, Text, Growth, Denoted, Occurs, PatchResult, Unmarked;
    PatchingIsIdempotent(doc, target);
    var once := Patched(doc, target, FUNCTION_NAMES);
    if i, l :| MarkerStays(doc, target, i, l) {
      OutsideLinesSurvive(doc, target, i, l);
    }
    if q: nat :| q < 5 && q < |Text(once)| && Occurs(MARKER, Text(once)[q]) {
      assert once[..|once|] == once;
      var i, l := BlockOfLine(once, q, |once|);
      LineOfBlock(once, i, l);
      PatchedBlock(doc, target, i);
      if Denoted(doc, FUNCTION_NAMES, i) {
        WrittenLineIsUnmarked(doc, target, i, l);
      } else {
        PatchedOffset(doc, target, i);
        assert MarkerStays(doc, target, i, l);
      }
    }
  }

  lemma PrefixSurvives(doc: Document, target: Target, i: nat)
    requires i <= |doc| && forall j :: 0 <= j < i ==> !(doc[j].Def? && doc[j].name in FUNCTION_NAMES)
    ensures Patched(doc, target, FUNCTION_NAMES)[..i] == doc[..i]
  {
    hide Replacement;
  }

  /** The marker stays in reach when its line stands before both functions. */
  lemma MarkerBeforeFunctions(doc: Document, target: Target, i: nat, l: nat)
    requires i <= |doc| && forall j :: 0 <= j < i ==> !(doc[j].Def? && doc[j].name in FUNCTION_NAMES)
    requires l < 5 && l < |Text(doc[..i])| && Occurs(MARKER, Text(doc[..i])[l])
    ensures Marked(Text(Patched(doc, target, FUNCTION_NAMES)))
  {
    hide Replacement, Patched, Text, Occurs;
    PrefixSurvives(doc, target, i);
    var once := Patched(doc, target, FUNCTION_NAMES);
    assert once == once[..i] + once[i..];
    TextOfConcat(once[..i], once[i..]);
    assert Text(once)[l] == Text(doc[..i])[l];
  }

  lemma LongReplacement(target: Target)
    ensures |Replacement(target, RESOURCE_DEFAULTS)| == 7
  {
  }

  /** When the module opens with the function of the long replacement, patching pushes the marker
      out of the first five lines, wherever it stood, and the patched module is then refused. */
  lemma MarkerPushedOut(doc: Document, target: Target)
    requires PatchResult(doc, target).Success? && IsLastDef(doc, RESOURCE_DEFAULTS, 0)
    requires forall l :: l in Replacement(target, RESOURCE_DEFAULTS) ==> !Occurs(MARKER, l)
    ensures PatchResult(Patched(doc, target, FUNCTION_NAMES), target) == Failure(MissingMarker)
  {
    hide Replacement, Occurs, PatchResult, Patched, Text;
    LongReplacement(target);
    PatchedBlock(doc, target, 0);
    var once := Patched(doc, target, FUNCTION_NAMES);
    assert RESOURCE_DEFAULTS in FUNCTION_NAMES;
    NoLines(once);
    TextAround(once, 0);
    forall l | 0 <= l < 5 ensures l < |Text(once)| && !Occurs(MARKER, Text(once)[l]) {
      assert Text(once)[l] == once[0].lines[l];
    }
    PatchingIsIdempotent(doc, target);
  }
}
