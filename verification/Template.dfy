/**
 Prompt templates of plugins/llmrouter/template.go: the string-rewriting renderer and, beside it, the
 meaning of a template as a tree. Ranging over the variable map is modelled by picking any next key.
 */
module Template {
  import opened Text
  import opened Sequences

  type Vars = map<string, string>

  const OPEN_IF := "{{if ."
  const OPEN_VAR := "{{."
  const CLOSE := "}}"
  const END := "{{end}}"

  /** The lookup table; a later pair overwrites an earlier one with the same key. */
  function VarMap(vars: seq<(string, string)>): Vars {
    if vars == [] then map[]
    else VarMap(vars[..|vars| - 1])[vars[|vars| - 1].0 := vars[|vars| - 1].1]
  }

  function VarToken(key: string): string {
    OPEN_VAR + key + CLOSE
  }

  // ----- the renderer -----

  /** One turn of the conditional-block loop: leave it, panic on a slice out of range, or go on. */
  datatype Turn = Leave | Panic | Continue(text: string)

  function CondTurn(text: string, vars: Vars): Turn {
    var idx := Index(text, OPEN_IF);
    if idx == -1 then Leave
    else
      var endAt := Index(text[idx..], END);
      if endAt == -1 then Leave
      else
        var condEnd := Index(text[idx + |OPEN_IF|..], CLOSE);
        if condEnd == -1 then Leave
        else RewriteBlock(text, vars, idx, endAt, condEnd)
  }

  /** Cuts the block out of the text, given where it starts and where, relative to that, its end and its key end. */
  function RewriteBlock(text: string, vars: Vars, idx: nat, endAt: nat, condEnd: nat): Turn
    requires idx + endAt + |END| <= |text|
    requires idx + |OPEN_IF| + condEnd + |CLOSE| <= |text|
  {
    var endIdx := endAt + idx + |END|;
    var condStart := idx + |OPEN_IF|;
    var key := text[condStart..condStart + condEnd];
    var contentStart := condStart + condEnd + |CLOSE|;
    if contentStart > endIdx - |END| then Panic
    else if key in vars && vars[key] != "" then
      var content := text[contentStart..endIdx - |END|];
      Continue(text[..idx] + ReplaceAll(content, VarToken(key), vars[key]) + text[endIdx..])
    else Continue(text[..idx] + text[endIdx..])
  }

  function LoopBody(vars: Vars): string -> Turn {
    text => CondTurn(text, vars)
  }

  /** The text after `n` turns of a loop, or where it stopped before that. */
  ghost function AfterTurns(body: string -> Turn, text: string, n: nat): string
    decreases n
  {
    if n == 0 then text
    else
      match body(text)
      case Continue(next) => AfterTurns(body, next, n - 1)
      case _ => text
  }

  ghost predicate StopsAfter(body: string -> Turn, text: string, n: nat) {
    !body(AfterTurns(body, text, n)).Continue?
  }

  /** The conditional-block loop ends, by leaving or by panicking. */
  ghost predicate Halts(text: string, vars: Vars) {
    exists n: nat :: StopsAfter(LoopBody(vars), text, n)
  }

  /** The loop ends with `residue`. */
  ghost predicate IsResidue(text: string, vars: Vars, residue: string) {
    exists n: nat :: StopsAfter(LoopBody(vars), text, n) && residue == AfterTurns(LoopBody(vars), text, n)
  }

  lemma {:induction false} OneMoreTurn(body: string -> Turn, text: string, n: nat)
    decreases n
    ensures AfterTurns(body, text, n + 1) ==
            if StopsAfter(body, text, n) then AfterTurns(body, text, n) else body(AfterTurns(body, text, n)).text
  {
    if n > 0 {
      match body(text)
      case Continue(next) => OneMoreTurn(body, next, n - 1);
      case _ =>
    }
  }

  /** A run of the loop stops at one text only. */
  lemma {:induction false} StopsForGood(body: string -> Turn, text: string, m: nat, n: nat)
    requires m <= n && StopsAfter(body, text, m)
    ensures AfterTurns(body, text, n) == AfterTurns(body, text, m)
  {
    if m < n {
      StopsForGood(body, text, m, n - 1);
      OneMoreTurn(body, text, n - 1);
    }
  }

  lemma ResidueIsUnique(text: string, vars: Vars, r1: string, r2: string)
    requires IsResidue(text, vars, r1) && IsResidue(text, vars, r2)
    ensures r1 == r2
  {
    var body := LoopBody(vars);
    var m: nat :| StopsAfter(body, text, m) && r1 == AfterTurns(body, text, m);
    var n: nat :| StopsAfter(body, text, n) && r2 == AfterTurns(body, text, n);
    if m <= n { StopsForGood(body, text, m, n); } else { StopsForGood(body, text, n, m); }
  }

  ghost predicate IsKeyOrder(order: seq<string>, vars: Vars) {
    Distinct(order) && forall k :: k in order <==> k in vars
  }

  function SubstituteInOrder(text: string, vars: Vars, order: seq<string>): string
    requires forall k :: k in order ==> k in vars
  {
    if order == [] then text
    else
      var last := order[|order| - 1];
      ReplaceAll(SubstituteInOrder(text, vars, order[..|order| - 1]), VarToken(last), vars[last])
  }

  datatype Rendering = Rendered(text: string) | Panicked

  // ----- templates as trees -----

  datatype Leaf = Plain(text: string) | Var(key: string)

  datatype Node = Single(leaf: Leaf) | If(key: string, body: seq<Leaf>)

  function PrintLeaf(leaf: Leaf): string {
    match leaf
    case Plain(text) => text
    case Var(key) => VarToken(key)
  }

  function PrintLeaves(leaves: seq<Leaf>): string {
    if leaves == [] then "" else PrintLeaf(leaves[0]) + PrintLeaves(leaves[1..])
  }

  function PrintNode(node: Node): string {
    match node
    case Single(leaf) => PrintLeaf(leaf)
    case If(key, body) => OPEN_IF + key + CLOSE + PrintLeaves(body) + END
  }

  function Print(nodes: seq<Node>): string {
    if nodes == [] then "" else PrintNode(nodes[0]) + Print(nodes[1..])
  }

  function EvalLeaf(leaf: Leaf, vars: Vars): string {
    match leaf
    case Plain(text) => text
    case Var(key) => if key in vars then vars[key] else VarToken(key)
  }

  function EvalLeaves(leaves: seq<Leaf>, vars: Vars): string {
    if leaves == [] then "" else EvalLeaf(leaves[0], vars) + EvalLeaves(leaves[1..], vars)
  }

  function EvalNode(node: Node, vars: Vars): string {
    match node
    case Single(leaf) => EvalLeaf(leaf, vars)
    case If(key, body) => if key in vars && vars[key] != "" then EvalLeaves(body, vars) else ""
  }

  /** The meaning of a template: set variables are replaced, a block stays exactly when its key is set to a non-empty value. */
  function Eval(nodes: seq<Node>, vars: Vars): string {
    if nodes == [] then "" else EvalNode(nodes[0], vars) + Eval(nodes[1..], vars)
  }

  /** Text in which no action can begin: no two braces open next to each other, and none is left open at the end. */
  predicate Inert(text: string) {
    forall i :: 0 <= i < |text| && text[i] == '{' ==> i + 1 < |text| && text[i + 1] != '{'
  }

  predicate BraceFree(key: string) {
    '{' !in key && '}' !in key
  }

  predicate LeafOk(leaf: Leaf) {
    match leaf
    case Plain(text) => Inert(text)
    case Var(key) => BraceFree(key)
  }

  predicate LeavesOk(leaves: seq<Leaf>) {
    forall i :: 0 <= i < |leaves| ==> LeafOk(leaves[i])
  }

  predicate NodeOk(node: Node) {
    match node
    case Single(leaf) => LeafOk(leaf)
    case If(key, body) => BraceFree(key) && LeavesOk(body)
  }

  predicate NodesOk(nodes: seq<Node>) {
    forall i :: 0 <= i < |nodes| ==> NodeOk(nodes[i])
  }

  /** No occurrence of `sub` begins in the text, whatever follows: none is in it, and no beginning of one ends it. */
  predicate Quiet(text: string, sub: string) {
    forall i :: 0 <= i < |text| ==> !Fits(text[i..], sub)
  }

  predicate Fits(tail: string, sub: string) {
    if |tail| < |sub| then tail == sub[..|tail|] else tail[..|sub|] == sub
  }

  predicate LeafQuiet(leaf: Leaf, sub: string) {
    match leaf
    case Plain(text) => Quiet(text, sub)
    case Var(key) => BraceFree(key)
  }

  predicate LeavesQuiet(leaves: seq<Leaf>, sub: string) {
    forall i :: 0 <= i < |leaves| ==> LeafQuiet(leaves[i], sub)
  }

  predicate KeysOk(vars: Vars) {
    forall k :: k in vars ==> BraceFree(k)
  }

  /** Replacing the key is not the identity. */
  predicate Rewrites(vars: Vars, key: string) {
    key in vars && vars[key] != VarToken(key)
  }

  /** No value can hold, or become part of, the token of another variable. */
  predicate OrderSafe(vars: Vars) {
    forall a, b :: a in vars && b in vars && a != b && Rewrites(vars, b) ==> Quiet(vars[a], VarToken(b))
  }

  /** Values that the rest of the renderer leaves alone, in blocks as well: they are scanned for blocks and for every token. */
  predicate VarsOk(vars: Vars) {
    && KeysOk(vars)
    && (forall a :: a in vars ==> Quiet(vars[a], OPEN_IF))
    && (forall a, b :: a in vars && b in vars && Rewrites(vars, b) ==> Quiet(vars[a], VarToken(b)))
  }

  // ----- where an action can begin in a printed template -----

  lemma InertNoStart(text: string, rest: string, sub: string)
    requires Inert(text) && |sub| >= 2 && sub[0] == '{' && sub[1] == '{'
    ensures NoStart(text, rest, sub)
  {
    forall i: nat | i < |text|
      ensures !StartsAt(text + rest, sub, i)
    {
    }
  }

  lemma QuietNoStart(text: string, rest: string, sub: string)
    requires Quiet(text, sub)
    ensures NoStart(text, rest, sub)
  {
    forall i: nat | i < |text|
      ensures !StartsAt(text + rest, sub, i)
    {
      assert !Fits(text[i..], sub);
      if StartsAt(text + rest, sub, i) {
        StartFits(text, rest, sub, i);
        assert false;
      }
    }
  }

  lemma StartFits(text: string, rest: string, sub: string, i: nat)
    requires i < |text| && StartsAt(text + rest, sub, i)
    ensures Fits(text[i..], sub)
  {
    var m := if |text| - i < |sub| then |text| - i else |sub|;
    assert (text + rest)[i..i + |sub|][..m] == text[i..][..m];
  }

  /** Text that is not quiet can be followed by one that completes an occurrence. */
  lemma FitStarts(text: string, sub: string, i: nat) returns (rest: string)
    requires i < |text| && sub != "" && Fits(text[i..], sub)
    ensures StartsAt(text + rest, sub, i) && |rest| < |sub| && rest == sub[|sub| - |rest|..]
  {
    if |text| - i < |sub| {
      rest := sub[|text| - i..];
      assert text == text[..i] + sub[..|text| - i];
      assert (text + rest)[i..i + |sub|] == sub[..|text| - i] + rest == sub;
    } else {
      rest := "";
      assert text + rest == text && (text + rest)[i..i + |sub|] == text[i..][..|sub|];
    }
  }

  lemma InertIsQuiet(text: string, sub: string)
    requires Inert(text) && |sub| >= 2 && sub[0] == '{' && sub[1] == '{'
    ensures Quiet(text, sub)
  {
    forall i | 0 <= i < |text|
      ensures !Fits(text[i..], sub)
    {
      if text[i] == '{' {
        assert text[i..][1] == text[i + 1] != sub[1];
      } else {
        assert text[i..][0] == text[i] != sub[0];
      }
    }
  }

  lemma OkIsQuiet(leaves: seq<Leaf>, sub: string)
    requires LeavesOk(leaves) && |sub| >= 2 && sub[0] == '{' && sub[1] == '{'
    ensures LeavesQuiet(leaves, sub)
  {
    forall i | 0 <= i < |leaves|
      ensures LeafQuiet(leaves[i], sub)
    {
      assert LeafOk(leaves[i]);
      if leaves[i].Plain? { InertIsQuiet(leaves[i].text, sub); }
    }
  }

  /** A token opens an action at its first character only. */
  lemma TokenNoStart(token: string, rest: string, sub: string)
    requires |token| > 0 && Inert(token[1..])
    requires |sub| >= 2 && sub[0] == '{' && sub[1] == '{'
    requires !StartsAt(token + rest, sub, 0)
    ensures NoStart(token, rest, sub)
  {
    var head, tail := [token[0]], token[1..];
    assert token == head + tail;
    assert head + (tail + rest) == token + rest;
    InertNoStart(tail, rest, sub);
    NoStartConcat(head, tail, rest, sub);
  }

  lemma VarTokenTailInert(key: string)
    requires BraceFree(key)
    ensures Inert(VarToken(key)[1..])
  {
    assert VarToken(key)[1..] == "{." + key + "}}";
  }

  lemma IfTokenTailInert(key: string)
    requires BraceFree(key)
    ensures Inert((OPEN_IF + key + CLOSE)[1..])
  {
    assert (OPEN_IF + key + CLOSE)[1..] == "{if ." + key + "}}";
  }

  lemma LeafNoStart(leaf: Leaf, rest: string, sub: string)
    requires LeafQuiet(leaf, sub) && sub in {OPEN_IF, END}
    ensures NoStart(PrintLeaf(leaf), rest, sub)
  {
    match leaf
    case Plain(text) =>
      QuietNoStart(text, rest, sub);
    case Var(key) =>
      VarTokenTailInert(key);
      assert (VarToken(key) + rest)[2] == '.' && sub[2] != '.';
      assert !StartsAt(VarToken(key) + rest, sub, 0);
      TokenNoStart(VarToken(key), rest, sub);
  }

  lemma {:induction false} LeavesNoStart(leaves: seq<Leaf>, rest: string, sub: string)
    requires LeavesQuiet(leaves, sub) && sub in {OPEN_IF, END}
    ensures NoStart(PrintLeaves(leaves), rest, sub)
  {
    if leaves != [] {
      LeafNoStart(leaves[0], PrintLeaves(leaves[1..]) + rest, sub);
      LeavesNoStart(leaves[1..], rest, sub);
      NoStartConcat(PrintLeaf(leaves[0]), PrintLeaves(leaves[1..]), rest, sub);
    }
  }

  // ----- replacing one variable -----

  function SubstLeaf(leaf: Leaf, key: string, value: string): Leaf {
    if leaf == Var(key) then Plain(value) else leaf
  }

  function SubstLeaves(leaves: seq<Leaf>, key: string, value: string): (r: seq<Leaf>)
    ensures |r| == |leaves|
    ensures forall i :: 0 <= i < |r| ==> r[i] == SubstLeaf(leaves[i], key, value)
  {
    seq(|leaves|, i requires 0 <= i < |leaves| => SubstLeaf(leaves[i], key, value))
  }

  lemma OtherTokenDoesNotMatch(key: string, other: string, rest: string)
    requires BraceFree(key) && BraceFree(other)
    requires StartsAt(VarToken(other) + rest, VarToken(key), 0)
    ensures key == other
  {
    var text := VarToken(other) + rest;
    var token := VarToken(key);
    assert text[..|token|] == token;
    forall i | 0 <= i < |token|
      ensures token[i] == text[i]
    {
      assert text[..|token|][i] == text[i];
    }
    assert forall i :: 0 <= i < |other| ==> text[3 + i] == other[i];
    assert forall i :: 0 <= i < |key| ==> token[3 + i] == key[i];
    assert text[3 + |other|] == '}' && token[3 + |key|] == '}';
    assert forall i :: 0 <= i < |key| ==> key[i] == other[i];
  }

  lemma ReplaceInLeaf(leaf: Leaf, rest: string, key: string, value: string)
    requires LeafQuiet(leaf, VarToken(key)) && BraceFree(key)
    ensures ReplaceAll(PrintLeaf(leaf) + rest, VarToken(key), value)
            == PrintLeaf(SubstLeaf(leaf, key, value)) + ReplaceAll(rest, VarToken(key), value)
  {
    var token := VarToken(key);
    match leaf
    case Plain(text) =>
      QuietNoStart(text, rest, token);
      ReplaceSkips(text, rest, token, value);
    case Var(other) =>
      if other == key {
        ReplaceTakes(rest, token, value);
      } else {
        VarTokenTailInert(other);
        if StartsAt(VarToken(other) + rest, token, 0) {
          OtherTokenDoesNotMatch(key, other, rest);
          assert false;
        }
        TokenNoStart(VarToken(other), rest, token);
        ReplaceSkips(VarToken(other), rest, token, value);
      }
  }

  /** Rewriting the printed leaves is printing the rewritten leaves. */
  lemma {:induction false} ReplaceInLeaves(leaves: seq<Leaf>, key: string, value: string)
    requires LeavesQuiet(leaves, VarToken(key)) && BraceFree(key)
    ensures ReplaceAll(PrintLeaves(leaves), VarToken(key), value) == PrintLeaves(SubstLeaves(leaves, key, value))
  {
    if leaves != [] {
      ReplaceInLeaves(leaves[1..], key, value);
      ReplaceInLeaf(leaves[0], PrintLeaves(leaves[1..]), key, value);
      assert SubstLeaves(leaves, key, value)[1..] == SubstLeaves(leaves[1..], key, value);
    }
  }

  // ----- the conditional-block loop on a printed template -----

  /** What a block leaves behind. */
  function ExpandNode(node: Node, vars: Vars): seq<Leaf> {
    match node
    case Single(leaf) => [leaf]
    case If(key, body) => if key in vars && vars[key] != "" then SubstLeaves(body, key, vars[key]) else []
  }

  function Expand(nodes: seq<Node>, vars: Vars): seq<Leaf> {
    if nodes == [] then [] else ExpandNode(nodes[0], vars) + Expand(nodes[1..], vars)
  }

  lemma Associates(x: string, y: string, z: string)
    ensures x + (y + z) == (x + y) + z
  {
  }

  lemma PrintLeavesCons(leaf: Leaf, leaves: seq<Leaf>)
    ensures PrintLeaves([leaf] + leaves) == PrintLeaf(leaf) + PrintLeaves(leaves)
  {
    assert ([leaf] + leaves)[1..] == leaves;
  }

  lemma {:induction false} PrintLeavesConcat(a: seq<Leaf>, b: seq<Leaf>)
    ensures PrintLeaves(a + b) == PrintLeaves(a) + PrintLeaves(b)
  {
    if a == [] {
      assert a + b == b;
    } else {
      var head, tail := a[0], a[1..];
      assert a == [head] + tail && a + b == [head] + (tail + b);
      PrintLeavesConcat(tail, b);
      PrintLeavesCons(head, tail);
      PrintLeavesCons(head, tail + b);
      Associates(PrintLeaf(head), PrintLeaves(tail), PrintLeaves(b));
    }
  }

  /** No block is left among printed leaves: the loop stops. */
  lemma LeavesStop(leaves: seq<Leaf>, vars: Vars)
    requires LeavesQuiet(leaves, OPEN_IF)
    ensures CondTurn(PrintLeaves(leaves), vars).Leave?
  {
    var text := PrintLeaves(leaves);
    LeavesNoStart(leaves, "", OPEN_IF);
    assert text + "" == text;
    IndexMeans(text, OPEN_IF);
  }

  /** The text of one block with the given content, in front of `rest`. */
  function BlockText(key: string, content: string, rest: string): string {
    OPEN_IF + (key + (CLOSE + (content + (END + rest))))
  }

  lemma PrintedBlock(key: string, body: seq<Leaf>, rest: string)
    ensures PrintNode(If(key, body)) + rest == BlockText(key, PrintLeaves(body), rest)
  {
    Reassociates(OPEN_IF, key, CLOSE, PrintLeaves(body), END, rest);
  }

  lemma Reassociates(a: string, b: string, c: string, d: string, e: string, f: string)
    ensures a + b + c + d + e + f == a + (b + (c + (d + (e + f))))
    ensures (a + b + c + d) + (e + f) == a + (b + (c + (d + (e + f))))
  {
    Associates(a + b + c + d, e, f);
    Associates(a + b + c, d, e + f);
    Associates(a + b, c, d + (e + f));
    Associates(a, b, c + (d + (e + f)));
  }

  /** The pieces of a text that are cut out of it by position. */
  lemma Pieces(before: string, opening: string, key: string, close: string, content: string, end: string, rest: string)
    ensures var text := before + (opening + (key + (close + (content + (end + rest)))));
            var k := |before| + |opening|;
            var c := k + |key| + |close|;
            && text[..|before|] == before
            && text[|before|..] == opening + (key + (close + (content + (end + rest))))
            && text[k..] == key + (close + (content + (end + rest)))
            && text[k..k + |key|] == key
            && text[c..c + |content|] == content
            && text[c + |content| + |end|..] == rest
  {
  }

  lemma OpeningNoEnd(key: string, body: seq<Leaf>, rest: string)
    requires BraceFree(key) && LeavesOk(body)
    ensures NoStart(OPEN_IF + key + CLOSE + PrintLeaves(body), rest, END)
  {
    var opening := OPEN_IF + key + CLOSE;
    IfTokenTailInert(key);
    var all := opening + (PrintLeaves(body) + rest);
    assert all[2] == 'i' && END[2] == 'e';
    assert !StartsAt(all, END, 0);
    TokenNoStart(opening, PrintLeaves(body) + rest, END);
    OkIsQuiet(body, END);
    LeavesNoStart(body, rest, END);
    NoStartConcat(opening, PrintLeaves(body), rest, END);
  }

  /** `text` is one printed block between `before` and `rest`. */
  ghost predicate IsBlockBetween(text: string, before: string, key: string, body: seq<Leaf>, rest: string) {
    && BraceFree(key) && LeavesOk(body)
    && text == before + BlockText(key, PrintLeaves(body), rest)
  }

  /** The pieces of text that the positions of a block mark. */
  ghost predicate PiecesAt(text: string, idx: nat, endAt: nat, condEnd: nat,
                           before: string, key: string, content: string, rest: string)
  {
    && |OPEN_IF| + condEnd + |CLOSE| <= endAt && idx + endAt + |END| <= |text|
    && text[..idx] == before
    && text[idx + |OPEN_IF|..idx + |OPEN_IF| + condEnd] == key
    && text[idx + |OPEN_IF| + condEnd + |CLOSE|..idx + endAt] == content
    && text[idx + endAt + |END|..] == rest
  }

  /** Where a block is, and where its end and the end of its key are relative to that. */
  ghost predicate BlockPositions(before: string, key: string, content: string, idx: nat, endAt: nat, condEnd: nat) {
    idx == |before| && endAt == |OPEN_IF| + |key| + |CLOSE| + |content| && condEnd == |key|
  }

  lemma BlockPieces(text: string, before: string, key: string, content: string, rest: string, idx: nat, endAt: nat, condEnd: nat)
    requires text == before + BlockText(key, content, rest)
    requires BlockPositions(before, key, content, idx, endAt, condEnd)
    ensures PiecesAt(text, idx, endAt, condEnd, before, key, content, rest)
  {
    Pieces(before, OPEN_IF, key, CLOSE, content, END, rest);
  }

  /** The three positions a turn computes. */
  ghost predicate FoundAt(text: string, idx: nat, endAt: nat, condEnd: nat) {
    && idx + |OPEN_IF| <= |text|
    && Index(text, OPEN_IF) == idx
    && Index(text[idx..], END) == endAt
    && Index(text[idx + |OPEN_IF|..], CLOSE) == condEnd
  }

  lemma EndFound(text: string, before: string, key: string, body: seq<Leaf>, rest: string)
    requires IsBlockBetween(text, before, key, body, rest)
    ensures Index(text[|before|..], END) == |OPEN_IF| + |key| + |CLOSE| + |PrintLeaves(body)|
  {
    var opening := OPEN_IF + key + CLOSE + PrintLeaves(body);
    Pieces(before, OPEN_IF, key, CLOSE, PrintLeaves(body), END, rest);
    OpeningNoEnd(key, body, END + rest);
    IndexAfter(opening, END, rest);
    Reassociates(OPEN_IF, key, CLOSE, PrintLeaves(body), END, rest);
  }

  lemma KeyFound(text: string, before: string, key: string, body: seq<Leaf>, rest: string)
    requires IsBlockBetween(text, before, key, body, rest)
    ensures |before| + |OPEN_IF| <= |text| && Index(text[|before| + |OPEN_IF|..], CLOSE) == |key|
  {
    var tail := PrintLeaves(body) + (END + rest);
    Pieces(before, OPEN_IF, key, CLOSE, PrintLeaves(body), END, rest);
    assert text[|before| + |OPEN_IF|..] == key + (CLOSE + tail);
    KeyNoClose(key, CLOSE + tail);
    IndexAfter(key, CLOSE, tail);
  }

  lemma KeyNoClose(key: string, rest: string)
    requires BraceFree(key)
    ensures NoStart(key, rest, CLOSE)
  {
    forall i: nat | i < |key|
      ensures !StartsAt(key + rest, CLOSE, i)
    {
      assert (key + rest)[i] == key[i] && key[i] in key;
    }
  }

  lemma OpeningFound(text: string, leaves: seq<Leaf>, key: string, body: seq<Leaf>, rest: string)
    requires LeavesQuiet(leaves, OPEN_IF) && IsBlockBetween(text, PrintLeaves(leaves), key, body, rest)
    ensures Index(text, OPEN_IF) == |PrintLeaves(leaves)|
  {
    LeavesNoStart(leaves, BlockText(key, PrintLeaves(body), rest), OPEN_IF);
    IndexAfter(PrintLeaves(leaves), OPEN_IF, key + (CLOSE + (PrintLeaves(body) + (END + rest))));
  }

  lemma BlockFound(text: string, leaves: seq<Leaf>, key: string, body: seq<Leaf>, rest: string, idx: nat, endAt: nat, condEnd: nat)
    requires LeavesQuiet(leaves, OPEN_IF) && IsBlockBetween(text, PrintLeaves(leaves), key, body, rest)
    requires BlockPositions(PrintLeaves(leaves), key, PrintLeaves(body), idx, endAt, condEnd)
    ensures FoundAt(text, idx, endAt, condEnd)
  {
    OpeningFound(text, leaves, key, body, rest);
    EndFound(text, PrintLeaves(leaves), key, body, rest);
    KeyFound(text, PrintLeaves(leaves), key, body, rest);
  }

  /** What a turn does, given the three positions and the pieces they mark. */
  lemma TurnAt(text: string, vars: Vars, idx: nat, endAt: nat, condEnd: nat,
               before: string, key: string, content: string, rest: string, rendered: string)
    requires FoundAt(text, idx, endAt, condEnd)
    requires PiecesAt(text, idx, endAt, condEnd, before, key, content, rest)
    requires rendered == if key in vars && vars[key] != "" then ReplaceAll(content, VarToken(key), vars[key]) else ""
    ensures CondTurn(text, vars) == Continue(before + rendered + rest)
  {
    assert before + rest == before + "" + rest;
  }

  lemma BlockMarks(text: string, leaves: seq<Leaf>, key: string, body: seq<Leaf>, rest: string)
    returns (idx: nat, endAt: nat, condEnd: nat)
    requires LeavesQuiet(leaves, OPEN_IF) && IsBlockBetween(text, PrintLeaves(leaves), key, body, rest)
    ensures FoundAt(text, idx, endAt, condEnd)
    ensures PiecesAt(text, idx, endAt, condEnd, PrintLeaves(leaves), key, PrintLeaves(body), rest)
  {
    idx, endAt, condEnd := |PrintLeaves(leaves)|, |OPEN_IF| + |key| + |CLOSE| + |PrintLeaves(body)|, |key|;
    BlockFound(text, leaves, key, body, rest, idx, endAt, condEnd);
    BlockPieces(text, PrintLeaves(leaves), key, PrintLeaves(body), rest, idx, endAt, condEnd);
  }

  /** One turn rewrites exactly the first block, as the tree says. */
  lemma TurnExpandsBlock(leaves: seq<Leaf>, key: string, body: seq<Leaf>, rest: string, vars: Vars)
    requires LeavesQuiet(leaves, OPEN_IF) && BraceFree(key) && LeavesOk(body)
    ensures CondTurn(PrintLeaves(leaves) + (PrintNode(If(key, body)) + rest), vars)
            == Continue(PrintLeaves(leaves) + PrintLeaves(ExpandNode(If(key, body), vars)) + rest)
  {
    PrintedBlock(key, body, rest);
    var text := PrintLeaves(leaves) + BlockText(key, PrintLeaves(body), rest);
    var idx, endAt, condEnd := BlockMarks(text, leaves, key, body, rest);
    RenderedBlock(key, body, vars);
    TurnAt(text, vars, idx, endAt, condEnd, PrintLeaves(leaves), key, PrintLeaves(body), rest,
           PrintLeaves(ExpandNode(If(key, body), vars)));
  }

  lemma RenderedBlock(key: string, body: seq<Leaf>, vars: Vars)
    requires BraceFree(key) && LeavesOk(body)
    ensures PrintLeaves(ExpandNode(If(key, body), vars)) ==
            if key in vars && vars[key] != "" then ReplaceAll(PrintLeaves(body), VarToken(key), vars[key]) else ""
  {
    if key in vars && vars[key] != "" {
      OkIsQuiet(body, VarToken(key));
      ReplaceInLeaves(body, key, vars[key]);
    }
  }

  function CountBlocks(nodes: seq<Node>): nat {
    if nodes == [] then 0 else (if nodes[0].If? then 1 else 0) + CountBlocks(nodes[1..])
  }

  lemma ExpandNodeQuiet(node: Node, vars: Vars, sub: string)
    requires NodeOk(node) && |sub| >= 2 && sub[0] == '{' && sub[1] == '{'
    requires forall a :: a in vars ==> Quiet(vars[a], sub)
    ensures LeavesQuiet(ExpandNode(node, vars), sub)
  {
    match node
    case Single(leaf) => OkIsQuiet([leaf], sub);
    case If(key, body) => OkIsQuiet(body, sub);
  }

  lemma {:induction false} ExpandQuiet(nodes: seq<Node>, vars: Vars, sub: string)
    requires NodesOk(nodes) && |sub| >= 2 && sub[0] == '{' && sub[1] == '{'
    requires forall a :: a in vars ==> Quiet(vars[a], sub)
    ensures LeavesQuiet(Expand(nodes, vars), sub)
  {
    if nodes != [] {
      ExpandQuiet(nodes[1..], vars, sub);
      ExpandNodeQuiet(nodes[0], vars, sub);
    }
  }

  /** `loop` rewrites the first block of this printed template as the tree says. */
  ghost predicate ExpandsBlock(loop: string -> Turn, leaves: seq<Leaf>, key: string, body: seq<Leaf>, rest: string, vars: Vars) {
    LeavesQuiet(leaves, OPEN_IF) && BraceFree(key) && LeavesOk(body) ==>
      loop(PrintLeaves(leaves) + (PrintNode(If(key, body)) + rest))
      == Continue(PrintLeaves(leaves) + PrintLeaves(ExpandNode(If(key, body), vars)) + rest)
  }

  ghost predicate ExpandsBlocks(loop: string -> Turn, vars: Vars) {
    forall leaves, key, body, rest :: ExpandsBlock(loop, leaves, key, body, rest, vars)
  }

  lemma LoopBodyExpands(vars: Vars)
    ensures ExpandsBlocks(LoopBody(vars), vars)
  {
    forall leaves, key, body, rest
      ensures ExpandsBlock(LoopBody(vars), leaves, key, body, rest, vars)
    {
      if LeavesQuiet(leaves, OPEN_IF) && BraceFree(key) && LeavesOk(body) {
        TurnExpandsBlock(leaves, key, body, rest, vars);
      }
    }
  }

  /** As many turns as there are blocks turn a printed template into its printed expansion. */
  lemma {:induction false} TurnsExpand(loop: string -> Turn, leaves: seq<Leaf>, nodes: seq<Node>, vars: Vars)
    requires LeavesQuiet(leaves, OPEN_IF) && NodesOk(nodes) && VarsOk(vars)
    requires ExpandsBlocks(loop, vars)
    ensures AfterTurns(loop, PrintLeaves(leaves) + Print(nodes), CountBlocks(nodes))
            == PrintLeaves(leaves + Expand(nodes, vars))
    decreases |nodes|
  {
    if nodes == [] {
      assert leaves + [] == leaves;
      assert PrintLeaves(leaves) + "" == PrintLeaves(leaves);
    } else {
      var node, rest := nodes[0], nodes[1..];
      var expanded := ExpandNode(node, vars);
      ExpandedQuiet(leaves, node, vars);
      TurnsExpand(loop, leaves + expanded, rest, vars);
      NodeTakesItsTurns(loop, leaves, node, Print(rest), vars, CountBlocks(rest));
      NodesStep(leaves, nodes, vars);
    }
  }

  lemma NodesStep(leaves: seq<Leaf>, nodes: seq<Node>, vars: Vars)
    requires nodes != []
    ensures Print(nodes) == PrintNode(nodes[0]) + Print(nodes[1..])
    ensures CountBlocks(nodes) == (if nodes[0].If? then 1 else 0) + CountBlocks(nodes[1..])
    ensures leaves + Expand(nodes, vars) == (leaves + ExpandNode(nodes[0], vars)) + Expand(nodes[1..], vars)
  {
    LeavesAssociate(leaves, ExpandNode(nodes[0], vars), Expand(nodes[1..], vars));
  }

  lemma NodeTakesItsTurns(loop: string -> Turn, leaves: seq<Leaf>, node: Node, rest: string, vars: Vars, n: nat)
    requires LeavesQuiet(leaves, OPEN_IF) && NodeOk(node) && ExpandsBlocks(loop, vars)
    ensures AfterTurns(loop, PrintLeaves(leaves) + (PrintNode(node) + rest), (if node.If? then 1 else 0) + n)
            == AfterTurns(loop, PrintLeaves(leaves + ExpandNode(node, vars)) + rest, n)
  {
    match node
    case Single(leaf) =>
      SingleTakesNoTurn(leaves, leaf, rest);
    case If(key, body) =>
      assert ExpandsBlock(loop, leaves, key, body, rest, vars);
      BlockTakesOneTurn(loop, leaves, key, body, rest, vars, n);
  }

  lemma ExpandedQuiet(leaves: seq<Leaf>, node: Node, vars: Vars)
    requires LeavesQuiet(leaves, OPEN_IF) && NodeOk(node) && VarsOk(vars)
    ensures LeavesQuiet(leaves + ExpandNode(node, vars), OPEN_IF)
  {
    ExpandNodeQuiet(node, vars, OPEN_IF);
  }

  lemma LeavesAssociate(a: seq<Leaf>, b: seq<Leaf>, c: seq<Leaf>)
    ensures a + (b + c) == (a + b) + c
  {
  }

  lemma SingleTakesNoTurn(leaves: seq<Leaf>, leaf: Leaf, rest: string)
    ensures PrintLeaves(leaves) + (PrintLeaf(leaf) + rest) == PrintLeaves(leaves + [leaf]) + rest
  {
    PrintLeavesConcat(leaves, [leaf]);
    assert PrintLeaves([leaf]) == PrintLeaf(leaf);
    Associates(PrintLeaves(leaves), PrintLeaf(leaf), rest);
  }

  lemma BlockTakesOneTurn(loop: string -> Turn, leaves: seq<Leaf>, key: string, body: seq<Leaf>, rest: string, vars: Vars, n: nat)
    requires LeavesQuiet(leaves, OPEN_IF) && BraceFree(key) && LeavesOk(body)
    requires ExpandsBlock(loop, leaves, key, body, rest, vars)
    ensures AfterTurns(loop, PrintLeaves(leaves) + (PrintNode(If(key, body)) + rest), n + 1)
            == AfterTurns(loop, PrintLeaves(leaves + ExpandNode(If(key, body), vars)) + rest, n)
  {
    PrintLeavesConcat(leaves, ExpandNode(If(key, body), vars));
  }

  lemma NoLeavesPrintNothing()
    ensures PrintLeaves([]) == ""
  {
  }

  /** On a printed template the loop always ends, with the printed expansion. */
  lemma PrintedTemplateHalts(nodes: seq<Node>, vars: Vars)
    requires NodesOk(nodes) && VarsOk(vars)
    ensures Halts(Print(nodes), vars)
    ensures IsResidue(Print(nodes), vars, PrintLeaves(Expand(nodes, vars)))
  {
    hide AfterTurns, Expand, Print, PrintLeaves, CountBlocks, CondTurn;
    var residue := PrintLeaves(Expand(nodes, vars));
    NoLeavesPrintNothing();
    LoopBodyExpands(vars);
    TurnsExpand(LoopBody(vars), [], nodes, vars);
    assert PrintLeaves([]) + Print(nodes) == Print(nodes);
    assert [] + Expand(nodes, vars) == Expand(nodes, vars);
    ExpandQuiet(nodes, vars, OPEN_IF);
    LeavesStop(Expand(nodes, vars), vars);
    assert StopsAfter(LoopBody(vars), Print(nodes), CountBlocks(nodes));
  }

  // ----- replacing all variables, in any order -----

  function SubstAll(leaves: seq<Leaf>, vars: Vars, order: seq<string>): (r: seq<Leaf>)
    requires forall k :: k in order ==> k in vars
    ensures |r| == |leaves|
    ensures forall i :: 0 <= i < |r| ==>
              r[i] == if leaves[i].Var? && leaves[i].key in order then Plain(vars[leaves[i].key]) else leaves[i]
  {
    if order == [] then leaves
    else
      var last := order[|order| - 1];
      SubstLeaves(SubstAll(leaves, vars, order[..|order| - 1]), last, vars[last])
  }

  /** No leaf holds, or ends in a beginning of, the token of a variable that is still to be replaced. */
  ghost predicate Awaiting(leaves: seq<Leaf>, vars: Vars, order: seq<string>) {
    forall b :: Rewrites(vars, b) && b !in order ==> LeavesQuiet(leaves, VarToken(b))
  }

  lemma {:induction false} SubstituteIsSubstAll(leaves: seq<Leaf>, vars: Vars, order: seq<string>)
    requires KeysOk(vars) && OrderSafe(vars) && Awaiting(leaves, vars, [])
    requires Distinct(order) && forall k :: k in order ==> k in vars
    ensures SubstituteInOrder(PrintLeaves(leaves), vars, order) == PrintLeaves(SubstAll(leaves, vars, order))
    ensures Awaiting(SubstAll(leaves, vars, order), vars, order)
  {
    if order != [] {
      var front, last := order[..|order| - 1], order[|order| - 1];
      assert order == front + [last] && last !in front;
      SubstituteIsSubstAll(leaves, vars, front);
      var before := SubstAll(leaves, vars, front);
      if Rewrites(vars, last) {
        ReplaceInLeaves(before, last, vars[last]);
      } else {
        ReplaceBySame(PrintLeaves(before), VarToken(last));
        PrintIgnoresSame(before, last);
      }
      StillAwaiting(before, vars, front, last);
    }
  }

  lemma StillAwaiting(leaves: seq<Leaf>, vars: Vars, front: seq<string>, last: string)
    requires OrderSafe(vars) && last in vars && Awaiting(leaves, vars, front)
    ensures Awaiting(SubstLeaves(leaves, last, vars[last]), vars, front + [last])
  {
    forall b | Rewrites(vars, b) && b !in front + [last]
      ensures LeavesQuiet(SubstLeaves(leaves, last, vars[last]), VarToken(b))
    {
      assert last in front + [last] && b !in front;
      assert LeavesQuiet(leaves, VarToken(b)) && Quiet(vars[last], VarToken(b));
    }
  }

  lemma {:induction false} PrintIgnoresSame(leaves: seq<Leaf>, key: string)
    ensures PrintLeaves(SubstLeaves(leaves, key, VarToken(key))) == PrintLeaves(leaves)
  {
    if leaves != [] {
      PrintIgnoresSame(leaves[1..], key);
      assert SubstLeaves(leaves, key, VarToken(key))[1..] == SubstLeaves(leaves[1..], key, VarToken(key));
    }
  }

  lemma {:induction false} AllSubstitutedEvaluates(leaves: seq<Leaf>, vars: Vars, order: seq<string>)
    requires IsKeyOrder(order, vars)
    ensures PrintLeaves(SubstAll(leaves, vars, order)) == EvalLeaves(leaves, vars)
  {
    hide SubstAll;
    if leaves != [] {
      AllSubstitutedEvaluates(leaves[1..], vars, order);
      assert SubstAll(leaves, vars, order)[1..] == SubstAll(leaves[1..], vars, order);
    }
  }

  lemma {:induction false} EvalLeavesConcat(a: seq<Leaf>, b: seq<Leaf>, vars: Vars)
    ensures EvalLeaves(a + b, vars) == EvalLeaves(a, vars) + EvalLeaves(b, vars)
  {
    if a == [] {
      assert a + b == b;
    } else {
      EvalLeavesConcat(a[1..], b, vars);
      assert (a + b)[0] == a[0] && (a + b)[1..] == a[1..] + b;
      Associates(EvalLeaf(a[0], vars), EvalLeaves(a[1..], vars), EvalLeaves(b, vars));
    }
  }

  lemma {:induction false} SubstBeforeEval(leaves: seq<Leaf>, key: string, vars: Vars)
    requires key in vars
    ensures EvalLeaves(SubstLeaves(leaves, key, vars[key]), vars) == EvalLeaves(leaves, vars)
  {
    if leaves != [] {
      SubstBeforeEval(leaves[1..], key, vars);
      assert SubstLeaves(leaves, key, vars[key])[1..] == SubstLeaves(leaves[1..], key, vars[key]);
    }
  }

  lemma {:induction false} ExpansionEvaluates(nodes: seq<Node>, vars: Vars)
    ensures EvalLeaves(Expand(nodes, vars), vars) == Eval(nodes, vars)
  {
    if nodes != [] {
      ExpansionEvaluates(nodes[1..], vars);
      EvalLeavesConcat(ExpandNode(nodes[0], vars), Expand(nodes[1..], vars), vars);
      match nodes[0]
      case Single(leaf) =>
        assert EvalLeaves([leaf], vars) == EvalLeaf(leaf, vars) + "";
      case If(key, body) =>
        if key in vars && vars[key] != "" { SubstBeforeEval(body, key, vars); }
    }
  }

  lemma ExpansionAwaits(nodes: seq<Node>, vars: Vars)
    requires NodesOk(nodes) && VarsOk(vars)
    ensures Awaiting(Expand(nodes, vars), vars, [])
  {
    forall b | Rewrites(vars, b)
      ensures LeavesQuiet(Expand(nodes, vars), VarToken(b))
    {
      ExpandQuiet(nodes, vars, VarToken(b));
    }
  }

  lemma PrintedResidue(nodes: seq<Node>, vars: Vars, residue: string)
    requires NodesOk(nodes) && VarsOk(vars) && IsResidue(Print(nodes), vars, residue)
    ensures residue == PrintLeaves(Expand(nodes, vars)) && CondTurn(residue, vars).Leave?
  {
    hide IsResidue, CondTurn, VarsOk;
    PrintedTemplateHalts(nodes, vars);
    ResidueIsUnique(Print(nodes), vars, residue, PrintLeaves(Expand(nodes, vars)));
    ExpansionStops(nodes, vars);
  }

  lemma ExpansionStops(nodes: seq<Node>, vars: Vars)
    requires NodesOk(nodes) && VarsOk(vars)
    ensures CondTurn(PrintLeaves(Expand(nodes, vars)), vars).Leave?
  {
    ExpandQuiet(nodes, vars, OPEN_IF);
    LeavesStop(Expand(nodes, vars), vars);
  }

  /** The residue of a printed template, with the variables replaced in any order, is the template's value. */
  lemma RenderIsEval(nodes: seq<Node>, vars: Vars, residue: string, order: seq<string>)
    requires NodesOk(nodes) && VarsOk(vars)
    requires IsResidue(Print(nodes), vars, residue) && IsKeyOrder(order, vars)
    ensures CondTurn(residue, vars).Leave?
    ensures SubstituteInOrder(residue, vars, order) == Eval(nodes, vars)
  {
    var leaves := Expand(nodes, vars);
    PrintedResidue(nodes, vars, residue);
    ExpansionAwaits(nodes, vars);
    SubstituteIsSubstAll(leaves, vars, order);
    AllSubstitutedEvaluates(leaves, vars, order);
    ExpansionEvaluates(nodes, vars);
  }

  // ----- when the order of replacement matters -----

  lemma OkAwaits(leaves: seq<Leaf>, vars: Vars)
    requires LeavesOk(leaves)
    ensures Awaiting(leaves, vars, [])
  {
    forall b | Rewrites(vars, b)
      ensures LeavesQuiet(leaves, VarToken(b))
    {
      OkIsQuiet(leaves, VarToken(b));
    }
  }

  /** On a template without blocks every order gives the template's value, if no value can become part of another token. */
  lemma OrderSafeEvaluates(leaves: seq<Leaf>, vars: Vars, order: seq<string>)
    requires LeavesOk(leaves) && KeysOk(vars) && OrderSafe(vars) && IsKeyOrder(order, vars)
    ensures SubstituteInOrder(PrintLeaves(leaves), vars, order) == EvalLeaves(leaves, vars)
  {
    OkAwaits(leaves, vars);
    SubstituteIsSubstAll(leaves, vars, order);
    AllSubstitutedEvaluates(leaves, vars, order);
  }

  lemma {:induction false} UntouchedByOthers(leaves: seq<Leaf>, vars: Vars, order: seq<string>)
    requires LeavesOk(leaves) && KeysOk(vars)
    requires forall k :: k in order ==> k in vars && Var(k) !in leaves
    ensures SubstituteInOrder(PrintLeaves(leaves), vars, order) == PrintLeaves(leaves)
  {
    if order != [] {
      var last := order[|order| - 1];
      UntouchedByOthers(leaves, vars, order[..|order| - 1]);
      OkIsQuiet(leaves, VarToken(last));
      ReplaceInLeaves(leaves, last, vars[last]);
      assert SubstLeaves(leaves, last, vars[last]) == leaves;
    }
  }

  /** The keys in an order that ends with two given ones. */
  lemma OrderEndingIn(vars: Vars, rest: seq<string>, a: string, b: string)
    requires a in vars && b in vars && a != b
    requires Distinct(rest) && forall k :: k in rest <==> k in vars.Keys - {a, b}
    ensures IsKeyOrder(rest + [a, b], vars)
  {
    var order := rest + [a, b];
    assert order[|rest|] == a && order[|rest| + 1] == b;
    assert forall i :: 0 <= i < |rest| ==> order[i] == rest[i] && rest[i] in rest;
    assert forall k :: k in order <==> k in rest || k == a || k == b;
  }

  /** A variable and the text that completes another token: replacing the variable last gives its value, replacing it earlier does not. */
  lemma UnsafeValueShows(vars: Vars, a: string, b: string)
    returns (leaves: seq<Leaf>, order1: seq<string>, order2: seq<string>)
    requires KeysOk(vars) && a in vars && a != b && Rewrites(vars, b) && !Quiet(vars[a], VarToken(b))
    ensures LeavesOk(leaves) && IsKeyOrder(order1, vars) && IsKeyOrder(order2, vars)
    ensures SubstituteInOrder(PrintLeaves(leaves), vars, order1) == EvalLeaves(leaves, vars)
    ensures SubstituteInOrder(PrintLeaves(leaves), vars, order2) != EvalLeaves(leaves, vars)
  {
    var completion := Completion(vars[a], b);
    leaves := [Var(a), Plain(completion)];
    order1, order2 := OrdersDiffer(leaves, vars, a, b, completion);
  }

  /** Inert text after which the value holds the token. */
  lemma Completion(value: string, key: string) returns (completion: string)
    requires BraceFree(key) && !Quiet(value, VarToken(key))
    ensures Inert(completion) && Occurs(value + completion, VarToken(key))
  {
    var i :| 0 <= i < |value| && Fits(value[i..], VarToken(key));
    completion := FitStarts(value, VarToken(key), i);
    CompletionIsInert(key, completion);
  }

  lemma OrdersDiffer(leaves: seq<Leaf>, vars: Vars, a: string, b: string, completion: string)
    returns (order1: seq<string>, order2: seq<string>)
    requires KeysOk(vars) && a in vars && a != b && Rewrites(vars, b)
    requires leaves == [Var(a), Plain(completion)] && LeavesOk(leaves)
    requires Occurs(vars[a] + completion, VarToken(b))
    ensures IsKeyOrder(order1, vars) && IsKeyOrder(order2, vars)
    ensures SubstituteInOrder(PrintLeaves(leaves), vars, order1) == EvalLeaves(leaves, vars)
    ensures SubstituteInOrder(PrintLeaves(leaves), vars, order2) != EvalLeaves(leaves, vars)
  {
    hide SubstituteInOrder, PrintLeaves, EvalLeaves, StartsAt, ReplaceAll, VarToken, LeavesOk;
    var rest := SomeOrder(vars.Keys - {a, b});
    OrderEndingIn(vars, rest, a, b);
    OrderEndingIn(vars, rest, b, a);
    order1, order2 := rest + [b, a], rest + [a, b];
    VariableThenText(leaves, vars, a, completion);
    assert order1 == (rest + [b]) + [a] && order2 == (rest + [a]) + [b];
    LastIsValue(leaves, vars, rest + [b], a, completion);
    LastIsValue(leaves, vars, rest, a, completion);
    OneMoreKey(PrintLeaves(leaves), vars, rest + [a], b);
    TokenNotEmpty(b);
    ReplaceChanges(vars[a] + completion, VarToken(b), vars[b]);
  }

  lemma TokenNotEmpty(key: string)
    ensures VarToken(key) != ""
  {
  }

  lemma OneMoreKey(text: string, vars: Vars, order: seq<string>, key: string)
    requires key in vars && forall k :: k in order ==> k in vars
    ensures SubstituteInOrder(text, vars, order + [key]) == ReplaceAll(SubstituteInOrder(text, vars, order), VarToken(key), vars[key])
  {
    assert (order + [key])[..|order|] == order;
  }

  lemma CompletionIsInert(key: string, completion: string)
    requires BraceFree(key) && |completion| < |VarToken(key)|
    requires completion == VarToken(key)[|VarToken(key)| - |completion|..]
    ensures Inert(completion)
  {
    VarTokenTailInert(key);
    var tail := VarToken(key)[1..];
    assert tail[|tail| - |completion|..] == completion;
    InertTail(tail, |tail| - |completion|);
  }

  lemma InertTail(text: string, n: nat)
    requires Inert(text) && n <= |text|
    ensures Inert(text[n..])
  {
    forall i | 0 <= i < |text| - n && text[n..][i] == '{'
      ensures i + 1 < |text| - n && text[n..][i + 1] != '{'
    {
      assert text[n + i] == '{';
    }
  }

  lemma VariableThenText(leaves: seq<Leaf>, vars: Vars, a: string, completion: string)
    requires leaves == [Var(a), Plain(completion)]
    ensures EvalLeaves(leaves, vars) == (if a in vars then vars[a] else VarToken(a)) + completion
  {
    assert leaves[1..] == [Plain(completion)] && leaves[1..][1..] == [];
    assert EvalLeaves(leaves[1..], vars) == completion + "";
  }

  lemma LastIsValue(leaves: seq<Leaf>, vars: Vars, others: seq<string>, a: string, completion: string)
    requires leaves == [Var(a), Plain(completion)] && LeavesOk(leaves) && KeysOk(vars) && a in vars
    requires forall k :: k in others ==> k in vars && k != a
    ensures SubstituteInOrder(PrintLeaves(leaves), vars, others + [a]) == vars[a] + completion
  {
    UntouchedByOthers(leaves, vars, others);
    OkIsQuiet(leaves, VarToken(a));
    ReplaceInLeaves(leaves, a, vars[a]);
    var after := SubstLeaves(leaves, a, vars[a]);
    assert after == [Plain(vars[a]), Plain(completion)];
    assert after[1..] == [Plain(completion)] && after[1..][1..] == [];
    assert PrintLeaves(after[1..]) == completion + "";
    OneMoreKey(PrintLeaves(leaves), vars, others, a);
  }

  /** Every order gives the same text, on every template without blocks. */
  ghost predicate OrderNeverMatters(vars: Vars) {
    forall leaves, order1, order2 :: LeavesOk(leaves) && IsKeyOrder(order1, vars) && IsKeyOrder(order2, vars) ==>
      SubstituteInOrder(PrintLeaves(leaves), vars, order1) == SubstituteInOrder(PrintLeaves(leaves), vars, order2)
  }

  /** Every order gives the template's value. */
  ghost predicate AlwaysEvaluates(vars: Vars) {
    forall leaves, order :: LeavesOk(leaves) && IsKeyOrder(order, vars) ==>
      SubstituteInOrder(PrintLeaves(leaves), vars, order) == EvalLeaves(leaves, vars)
  }

  /**
   The order in which the map is visited never matters, and the result is always the template's value, exactly when no
   value holds the token of another variable or ends in a beginning of one, replacements by the token itself aside.
   */
  lemma OrderNeverMattersExactlyWhen(vars: Vars)
    requires KeysOk(vars)
    ensures OrderNeverMatters(vars) <==> OrderSafe(vars)
    ensures AlwaysEvaluates(vars) <==> OrderSafe(vars)
  {
    if OrderSafe(vars) {
      forall leaves, order | LeavesOk(leaves) && IsKeyOrder(order, vars)
        ensures SubstituteInOrder(PrintLeaves(leaves), vars, order) == EvalLeaves(leaves, vars)
      {
        OrderSafeEvaluates(leaves, vars, order);
      }
    } else {
      var a, b :| a in vars && a != b && Rewrites(vars, b) && !Quiet(vars[a], VarToken(b));
      var leaves, order1, order2 := UnsafeValueShows(vars, a, b);
    }
  }

  // ----- when the loop ends, and what goes wrong with braces in values -----

  /** How many braces are open in the text. */
  function Opened(text: string): nat {
    multiset(text)['{']
  }

  lemma OpenedConcat(a: string, b: string)
    ensures Opened(a + b) == Opened(a) + Opened(b)
  {
  }

  lemma TokenOpensTwo(key: string)
    ensures Opened(VarToken(key)) >= 2
  {
    OpenedConcat(OPEN_VAR + key, CLOSE);
    OpenedConcat(OPEN_VAR, key);
  }

  lemma {:induction false} ReplaceOpensNoMore(text: string, pattern: string, value: string)
    requires pattern != "" && Opened(value) <= Opened(pattern)
    ensures Opened(ReplaceAll(text, pattern, value)) <= Opened(text)
  {
    hide Opened;
    if |text| >= |pattern| {
      if StartsAt(text, pattern, 0) {
        ReplaceOpensNoMore(text[|pattern|..], pattern, value);
        OpenedConcat(text[..|pattern|], text[|pattern|..]);
        OpenedConcat(value, ReplaceAll(text[|pattern|..], pattern, value));
        assert text == text[..|pattern|] + text[|pattern|..];
      } else {
        ReplaceOpensNoMore(text[1..], pattern, value);
        OpenedConcat([text[0]], text[1..]);
        OpenedConcat([text[0]], ReplaceAll(text[1..], pattern, value));
        assert text == [text[0]] + text[1..];
      }
    }
  }

  /** Each turn removes the braces that open a block, and a value brings back no more than its token had. */
  lemma TurnClosesBraces(text: string, vars: Vars)
    requires forall k :: k in vars ==> Opened(vars[k]) <= 2
    requires CondTurn(text, vars).Continue?
    ensures Opened(CondTurn(text, vars).text) < Opened(text)
  {
    hide Opened;
    var idx, endAt, condEnd := TurnIsRewrite(text, vars);
    RewriteClosesBraces(text, vars, idx, endAt, condEnd);
  }

  lemma TurnIsRewrite(text: string, vars: Vars) returns (idx: nat, endAt: nat, condEnd: nat)
    requires CondTurn(text, vars).Continue?
    ensures StartsAt(text, OPEN_IF, idx)
    ensures idx + endAt + |END| <= |text| && idx + |OPEN_IF| + condEnd + |CLOSE| <= idx + endAt
    ensures CondTurn(text, vars) == RewriteBlock(text, vars, idx, endAt, condEnd)
  {
    idx := Index(text, OPEN_IF);
    endAt, condEnd := Index(text[idx..], END), Index(text[idx + |OPEN_IF|..], CLOSE);
    IndexMeans(text, OPEN_IF);
  }

  lemma RewriteClosesBraces(text: string, vars: Vars, idx: nat, endAt: nat, condEnd: nat)
    requires StartsAt(text, OPEN_IF, idx)
    requires idx + endAt + |END| <= |text| && idx + |OPEN_IF| + condEnd + |CLOSE| <= idx + endAt
    requires forall k :: k in vars ==> Opened(vars[k]) <= 2
    requires RewriteBlock(text, vars, idx, endAt, condEnd).Continue?
    ensures Opened(RewriteBlock(text, vars, idx, endAt, condEnd).text) < Opened(text)
  {
    hide RewriteBlock, Opened, StartsAt;
    BracesAfterRewrite(text, vars, idx, endAt, condEnd);
    OpeningHasBraces(text, idx, idx + |OPEN_IF| + condEnd + |CLOSE|, idx + endAt, idx + endAt + |END|);
  }

  lemma OpeningHasBraces(text: string, idx: nat, c: nat, e: nat, d: nat)
    requires StartsAt(text, OPEN_IF, idx) && idx + |OPEN_IF| <= c <= e <= d <= |text|
    ensures Opened(text[..idx]) + Opened(text[c..e]) + Opened(text[d..]) < Opened(text)
  {
    assert text[idx..idx + |OPEN_IF|][0] == text[idx] && text[idx..c][0] == text[idx];
    FivePieces(text, idx, c, e, d);
    assert '{' in text[idx..c];
  }

  lemma BracesAfterRewrite(text: string, vars: Vars, idx: nat, endAt: nat, condEnd: nat)
    requires idx + endAt + |END| <= |text|
    requires idx + |OPEN_IF| + condEnd + |CLOSE| <= idx + endAt
    requires forall k :: k in vars ==> Opened(vars[k]) <= 2
    requires RewriteBlock(text, vars, idx, endAt, condEnd).Continue?
    ensures Opened(RewriteBlock(text, vars, idx, endAt, condEnd).text) <=
            Opened(text[..idx]) + Opened(text[idx + |OPEN_IF| + condEnd + |CLOSE|..idx + endAt]) + Opened(text[idx + endAt + |END|..])
  {
    hide ReplaceAll, Opened;
    var c := idx + |OPEN_IF| + condEnd + |CLOSE|;
    var before, content, rest := text[..idx], text[c..idx + endAt], text[idx + endAt + |END|..];
    var key := text[idx + |OPEN_IF|..idx + |OPEN_IF| + condEnd];
    if key in vars && vars[key] != "" {
      TokenOpensTwo(key);
      ReplaceOpensNoMore(content, VarToken(key), vars[key]);
      var rendered := ReplaceAll(content, VarToken(key), vars[key]);
      OpenedConcat(before, rendered);
      OpenedConcat(before + rendered, rest);
    } else {
      OpenedConcat(before, rest);
    }
  }

  lemma FivePieces(text: string, a: nat, b: nat, c: nat, d: nat)
    requires a <= b <= c <= d <= |text|
    ensures Opened(text) == Opened(text[..a]) + Opened(text[a..b]) + Opened(text[b..c]) + Opened(text[c..d]) + Opened(text[d..])
  {
    assert text == text[..a] + (text[a..b] + (text[b..c] + (text[c..d] + text[d..])));
    OpenedConcat(text[..a], text[a..b] + (text[b..c] + (text[c..d] + text[d..])));
    OpenedConcat(text[a..b], text[b..c] + (text[c..d] + text[d..]));
    OpenedConcat(text[b..c], text[c..d] + text[d..]);
    OpenedConcat(text[c..d], text[d..]);
  }

  /** When no value opens more braces than the two of a token, the loop ends on every template. */
  lemma {:induction false} FewBracesHalt(text: string, vars: Vars)
    requires forall k :: k in vars ==> Opened(vars[k]) <= 2
    ensures Halts(text, vars)
    decreases Opened(text)
  {
    match CondTurn(text, vars)
    case Continue(next) =>
      TurnClosesBraces(text, vars);
      FewBracesHalt(next, vars);
      HaltsOneEarlier(text, next, vars);
    case _ =>
      assert StopsAfter(LoopBody(vars), text, 0);
  }

  lemma HaltsOneEarlier(text: string, next: string, vars: Vars)
    requires CondTurn(text, vars) == Continue(next) && Halts(next, vars)
    ensures Halts(text, vars)
  {
    var n: nat :| StopsAfter(LoopBody(vars), next, n);
    StopsOneLater(LoopBody(vars), text, next, n);
  }

  lemma StopsOneLater(loop: string -> Turn, text: string, next: string, n: nat)
    requires loop(text) == Continue(next) && StopsAfter(loop, next, n)
    ensures StopsAfter(loop, text, n + 1)
  {
    assert AfterTurns(loop, text, n + 1) == AfterTurns(loop, next, n);
  }

  /** A value that contains the block it is used in makes the loop go round for ever. */
  lemma BlockLoopCanSpin(key: string, vars: Vars)
    requires BraceFree(key)
    requires var block := PrintNode(If(key, [Var(key)])); vars == map[key := block]
    ensures !Halts(PrintNode(If(key, [Var(key)])), vars)
  {
    var block := PrintNode(If(key, [Var(key)]));
    TurnExpandsBlock([], key, [Var(key)], "", vars);
    assert ExpandNode(If(key, [Var(key)]), vars) == [Plain(block)];
    assert PrintLeaves([Plain(block)]) == block;
    assert PrintLeaves([]) + (block + "") == block;
    assert PrintLeaves([]) + block + "" == block;
    assert LoopBody(vars)(block) == Continue(block);
    forall n: nat
      ensures !StopsAfter(LoopBody(vars), block, n)
    {
      SpinsInPlace(LoopBody(vars), block, n);
    }
  }

  lemma {:induction false} SpinsInPlace(loop: string -> Turn, text: string, n: nat)
    requires loop(text) == Continue(text)
    ensures AfterTurns(loop, text, n) == text
    decreases n
  {
    if n > 0 { SpinsInPlace(loop, text, n - 1); }
  }

  /** A value that contains another variable makes the result depend on the order in which the map is visited. */
  lemma OrderCanMatter(a: string, b: string, value: string)
    requires BraceFree(a) && BraceFree(b) && a != b && Inert(value) && value != VarToken(b)
    ensures var vars := map[a := VarToken(b), b := value];
            && SubstituteInOrder(VarToken(a), vars, [a, b]) == value
            && SubstituteInOrder(VarToken(a), vars, [b, a]) == VarToken(b)
  {
    var vars := map[a := VarToken(b), b := value];
    TokenReplaced(a, a, VarToken(b));
    TokenReplaced(b, b, value);
    TokenReplaced(a, b, value);
    assert [a, b][..1] == [a] && [a][..0] == [] && [b, a][..1] == [b] && [b][..0] == [];
    assert SubstituteInOrder(VarToken(a), vars, [a]) == VarToken(b);
    assert SubstituteInOrder(VarToken(a), vars, [b]) == VarToken(a);
  }

  lemma TokenReplaced(key: string, pattern: string, value: string)
    requires BraceFree(key) && BraceFree(pattern)
    ensures ReplaceAll(VarToken(key), VarToken(pattern), value) == if key == pattern then value else VarToken(key)
  {
    OkIsQuiet([Var(key)], VarToken(pattern));
    ReplaceInLeaves([Var(key)], pattern, value);
    assert PrintLeaves([Var(key)]) == VarToken(key);
    var after := SubstLeaf(Var(key), pattern, value);
    assert SubstLeaves([Var(key)], pattern, value) == [after];
    assert PrintLeaves([after]) == PrintLeaf(after);
  }

  /** The first block's opening has no closing braces of its own before the end marker. */
  ghost predicate OpensUnclosed(text: string, before: string, key: string, rest: string) {
    && text == before + (OPEN_IF + (key + (END + rest)))
    && NoStart(before, OPEN_IF + (key + (END + rest)), OPEN_IF)
    && NoStart(key, END + rest, CLOSE)
  }

  /** A turn slices out of range exactly on a text whose first opening is not closed before the end marker that follows it. */
  lemma PanicsExactlyWhen(text: string, vars: Vars)
    ensures CondTurn(text, vars).Panic? <==> exists before, key, rest :: OpensUnclosed(text, before, key, rest)
  {
    if before, key, rest :| OpensUnclosed(text, before, key, rest) {
      var idx, endAt, condEnd := UnclosedFound(text, before, key, rest);
    }
    if CondTurn(text, vars).Panic? {
      var idx := Index(text, OPEN_IF);
      var endAt, condEnd := Index(text[idx..], END), Index(text[idx + |OPEN_IF|..], CLOSE);
      PanicIsUnclosed(text, idx, endAt, condEnd);
    }
  }

  lemma PanicIsUnclosed(text: string, idx: nat, endAt: nat, condEnd: nat)
    requires FoundAt(text, idx, endAt, condEnd) && |OPEN_IF| + condEnd + |CLOSE| > endAt
    ensures exists before, key, rest :: OpensUnclosed(text, before, key, rest)
  {
    hide Index, StartsAt;
    IndexMeans(text, OPEN_IF);
    IndexMeans(text[idx..], END);
    IndexMeans(text[idx + |OPEN_IF|..], CLOSE);
    EndAfterOpening(text[idx..], endAt);
    var before, key, rest := text[..idx], text[idx + |OPEN_IF|..idx + endAt], text[idx + endAt + |END|..];
    CutAtBoth(text, idx, endAt);
    KeyIsUnclosed(key, END + rest, condEnd);
    assert OpensUnclosed(text, before, key, rest);
  }

  lemma CutAtBoth(text: string, idx: nat, endAt: nat)
    requires StartsAt(text, OPEN_IF, idx) && |OPEN_IF| <= endAt && StartsAt(text[idx..], END, endAt)
    ensures var key, rest := text[idx + |OPEN_IF|..idx + endAt], text[idx + endAt + |END|..];
            && text[idx + |OPEN_IF|..] == key + (END + rest)
            && text == text[..idx] + (OPEN_IF + (key + (END + rest)))
  {
    assert text[idx..][endAt..endAt + |END|] == text[idx + endAt..idx + endAt + |END|];
  }

  lemma KeyIsUnclosed(key: string, tail: string, condEnd: nat)
    requires tail != "" && tail[0] != CLOSE[1] && condEnd + 1 >= |key|
    requires forall i: nat :: i < condEnd ==> !StartsAt(key + tail, CLOSE, i)
    ensures NoStart(key, tail, CLOSE)
  {
    if i: nat :| i < |key| && StartsAt(key + tail, CLOSE, i) {
      CharsAt(key + tail, CLOSE, i, 1);
      assert false;
    }
  }

  lemma EndAfterOpening(text: string, endAt: nat)
    requires StartsAt(text, OPEN_IF, 0) && StartsAt(text, END, endAt)
    ensures endAt >= |OPEN_IF|
  {
    CharsAt(text, END, endAt, 0);
    CharsAt(text, END, endAt, 1);
    CharsAt(text, END, endAt, 2);
    CharsAt(text, OPEN_IF, 0, 1);
    CharsAt(text, OPEN_IF, 0, 2);
    CharsAt(text, OPEN_IF, 0, 3);
    CharsAt(text, OPEN_IF, 0, 4);
    CharsAt(text, OPEN_IF, 0, 5);
  }

  lemma UnclosedFound(text: string, before: string, key: string, rest: string) returns (idx: nat, endAt: nat, condEnd: nat)
    requires OpensUnclosed(text, before, key, rest)
    ensures FoundAt(text, idx, endAt, condEnd) && |OPEN_IF| + condEnd + |CLOSE| > endAt
  {
    idx, endAt, condEnd := |before|, |OPEN_IF + key|, |key + "{{end"|;
    var tail := OPEN_IF + (key + (END + rest));
    IndexAfter(before, OPEN_IF, key + (END + rest));
    assert text[idx..] == tail && text[idx + |OPEN_IF|..] == key + (END + rest);
    OpeningHoldsNoEnd(key + (END + rest));
    KeyHoldsNoEnd(key, rest);
    NoStartConcat(OPEN_IF, key, END + rest, END);
    IndexAfter(OPEN_IF + key, END, rest);
    Associates(OPEN_IF, key, END + rest);
    EndMarkerSplits(rest);
    NameHoldsNoClose(rest);
    NoStartConcat(key, "{{end", CLOSE + rest, CLOSE);
    IndexAfter(key + "{{end", CLOSE, rest);
    Associates(key, "{{end", CLOSE + rest);
  }

  lemma OpeningHoldsNoEnd(rest: string)
    ensures NoStart(OPEN_IF, rest, END)
  {
    var text := OPEN_IF + rest;
    assert Inert(OPEN_IF[1..]);
    assert text[2] == 'i' && END[2] == 'e';
    assert !StartsAt(text, END, 0);
    TokenNoStart(OPEN_IF, rest, END);
  }

  lemma KeyHoldsNoEnd(key: string, rest: string)
    requires NoStart(key, END + rest, CLOSE)
    ensures NoStart(key, END + rest, END)
  {
    forall i: nat | i < |key|
      ensures !StartsAt(key + (END + rest), END, i)
    {
      if StartsAt(key + (END + rest), END, i) {
        EndInKey(key, rest, i);
        assert false;
      }
    }
  }

  lemma CharsAt(text: string, sub: string, i: nat, k: nat)
    requires StartsAt(text, sub, i) && k < |sub|
    ensures text[i + k] == sub[k]
  {
    assert text[i..i + |sub|][k] == sub[k];
  }

  /** An end marker inside the key would bring its own closing braces, or overlap the one after the key. */
  lemma EndInKey(key: string, rest: string, i: nat)
    requires i < |key| && StartsAt(key + (END + rest), END, i)
    ensures exists j: nat :: j < |key| && StartsAt(key + (END + rest), CLOSE, j)
  {
    var text := key + (END + rest);
    CharsAt(text, END, i, 2);
    CharsAt(text, END, i, 5);
    CharsAt(text, END, i, 6);
    assert text[|key|] == END[0] && text[|key| + 1] == END[1];
    if i + 5 < |key| {
      assert text[i + 5..i + 7] == CLOSE;
      assert StartsAt(text, CLOSE, i + 5);
    } else {
      CharsAt(text, END, i, |key| - i);
      assert false;
    }
  }

  lemma EndMarkerSplits(rest: string)
    ensures END + rest == "{{end" + (CLOSE + rest)
  {
    assert END == "{{end" + CLOSE;
  }

  lemma NameHoldsNoClose(rest: string)
    ensures NoStart("{{end", CLOSE + rest, CLOSE)
  {
    forall i: nat | i < 5
      ensures !StartsAt("{{end" + (CLOSE + rest), CLOSE, i)
    {
      assert ("{{end" + (CLOSE + rest))[i] == "{{end"[i] != '}';
    }
  }

  // ----- the method -----

  /** A template without blocks is its own residue. */
  lemma LeavesAreResidue(leaves: seq<Leaf>, vars: Vars, residue: string)
    requires LeavesOk(leaves) && IsResidue(PrintLeaves(leaves), vars, residue)
    ensures residue == PrintLeaves(leaves) && CondTurn(residue, vars).Leave?
  {
    OkIsQuiet(leaves, OPEN_IF);
    LeavesStop(leaves, vars);
    assert StopsAfter(LoopBody(vars), PrintLeaves(leaves), 0);
    ResidueIsUnique(PrintLeaves(leaves), vars, residue, PrintLeaves(leaves));
  }

  /** What a rendering has to be for the trees that print as the template, with blocks and without. */
  ghost predicate AgreesWithTrees(tmpl: string, vars: Vars, r: Rendering) {
    && (forall nodes :: NodesOk(nodes) && VarsOk(vars) && tmpl == Print(nodes) ==> r == Rendered(Eval(nodes, vars)))
    && (forall leaves :: LeavesOk(leaves) && KeysOk(vars) && OrderSafe(vars) && tmpl == PrintLeaves(leaves) ==>
          r == Rendered(EvalLeaves(leaves, vars)))
  }

  lemma PanicPrintsNoTree(tmpl: string, vars: Vars, residue: string)
    requires IsResidue(tmpl, vars, residue) && CondTurn(residue, vars).Panic?
    ensures AgreesWithTrees(tmpl, vars, Panicked)
  {
    hide IsResidue, CondTurn;
    forall nodes | NodesOk(nodes) && VarsOk(vars) && tmpl == Print(nodes)
      ensures false
    {
      PrintedResidue(nodes, vars, residue);
    }
    forall leaves | LeavesOk(leaves) && tmpl == PrintLeaves(leaves)
      ensures false
    {
      LeavesAreResidue(leaves, vars, residue);
    }
  }

  lemma ResidueAgreesWithTrees(tmpl: string, vars: Vars, residue: string, order: seq<string>)
    requires IsResidue(tmpl, vars, residue) && IsKeyOrder(order, vars)
    ensures AgreesWithTrees(tmpl, vars, Rendered(SubstituteInOrder(residue, vars, order)))
  {
    forall nodes | NodesOk(nodes) && VarsOk(vars) && tmpl == Print(nodes)
      ensures SubstituteInOrder(residue, vars, order) == Eval(nodes, vars)
    {
      RenderIsEval(nodes, vars, residue, order);
    }
    forall leaves | LeavesOk(leaves) && KeysOk(vars) && OrderSafe(vars) && tmpl == PrintLeaves(leaves)
      ensures SubstituteInOrder(residue, vars, order) == EvalLeaves(leaves, vars)
    {
      LeavesAreResidue(leaves, vars, residue);
      OrderSafeEvaluates(leaves, vars, order);
    }
  }

  /**
   The renderer. Its block loop need not end (see `BlockLoopCanSpin`), so it is called on inputs for which it does;
   `PrintedTemplateHalts` and `FewBracesHalt` give two large families of them.
   */
  method RenderString(tmpl: string, pairs: seq<(string, string)>) returns (r: Rendering)
    requires Halts(tmpl, VarMap(pairs))
    ensures match r
            case Panicked => exists residue :: IsResidue(tmpl, VarMap(pairs), residue) && CondTurn(residue, VarMap(pairs)).Panic?
            case Rendered(text) =>
              exists residue, order :: IsResidue(tmpl, VarMap(pairs), residue) && CondTurn(residue, VarMap(pairs)).Leave?
                && IsKeyOrder(order, VarMap(pairs)) && text == SubstituteInOrder(residue, VarMap(pairs), order)
    ensures AgreesWithTrees(tmpl, VarMap(pairs), r)
  {
    hide AgreesWithTrees, IsResidue, CondTurn, SubstituteInOrder, Halts;
    var vars := BuildVarMap(pairs);
    var stopped, result := ExpandBlocks(tmpl, vars);
    if stopped.Panic? {
      PanicPrintsNoTree(tmpl, vars, result);
      return Panicked;
    }
    ghost var residue := result;
    result := ReplaceVariables(result, vars);
    ghost var order :| IsKeyOrder(order, vars) && result == SubstituteInOrder(residue, vars, order);
    ResidueAgreesWithTrees(tmpl, vars, residue, order);
    r := Rendered(result);
  }

  /** The pair at `i` is the last one with its key. */
  predicate IsLastPair(pairs: seq<(string, string)>, i: nat) {
    i < |pairs| && forall j :: i < j < |pairs| ==> pairs[j].0 != pairs[i].0
  }

  lemma {:induction false} VarMapKeepsLast(pairs: seq<(string, string)>, i: nat)
    requires IsLastPair(pairs, i)
    ensures pairs[i].0 in VarMap(pairs) && VarMap(pairs)[pairs[i].0] == pairs[i].1
  {
    if i < |pairs| - 1 {
      assert IsLastPair(pairs[..|pairs| - 1], i);
      VarMapKeepsLast(pairs[..|pairs| - 1], i);
    }
  }

  lemma {:induction false} VarMapHasOnlyPairs(pairs: seq<(string, string)>, key: string) returns (i: nat)
    requires key in VarMap(pairs)
    ensures IsLastPair(pairs, i) && pairs[i].0 == key
  {
    if pairs[|pairs| - 1].0 == key {
      i := |pairs| - 1;
    } else {
      i := VarMapHasOnlyPairs(pairs[..|pairs| - 1], key);
    }
  }

  /** The keys are those of the pairs, each with the value of its last pair. */
  method BuildVarMap(pairs: seq<(string, string)>) returns (vars: Vars)
    ensures vars == VarMap(pairs)
    ensures forall i: nat :: IsLastPair(pairs, i) ==> pairs[i].0 in vars && vars[pairs[i].0] == pairs[i].1
    ensures forall k :: k in vars ==> exists i: nat :: IsLastPair(pairs, i) && pairs[i].0 == k
  {
    forall i: nat | IsLastPair(pairs, i)
      ensures pairs[i].0 in VarMap(pairs) && VarMap(pairs)[pairs[i].0] == pairs[i].1
    {
      VarMapKeepsLast(pairs, i);
    }
    forall key | key in VarMap(pairs)
      ensures exists i: nat :: IsLastPair(pairs, i) && pairs[i].0 == key
    {
      var i := VarMapHasOnlyPairs(pairs, key);
    }
    vars := map[];
    for i := 0 to |pairs|
      invariant vars == VarMap(pairs[..i])
    {
      assert pairs[..i + 1][..i] == pairs[..i];
      vars := vars[pairs[i].0 := pairs[i].1];
    }
    assert pairs[..|pairs|] == pairs;
  }

  /** The conditional-block loop. */
  method ExpandBlocks(tmpl: string, vars: Vars) returns (stopped: Turn, result: string)
    requires Halts(tmpl, vars)
    ensures IsResidue(tmpl, vars, result)
    ensures stopped == CondTurn(result, vars) && !stopped.Continue?
  {
    ghost var limit: nat :| StopsAfter(LoopBody(vars), tmpl, limit);
    stopped, result := Loop(LoopBody(vars), tmpl, limit);
  }

  method Loop(body: string -> Turn, tmpl: string, ghost limit: nat) returns (stopped: Turn, result: string)
    requires StopsAfter(body, tmpl, limit)
    ensures exists n: nat :: StopsAfter(body, tmpl, n) && result == AfterTurns(body, tmpl, n)
    ensures stopped == body(result) && !stopped.Continue?
  {
    ghost var n := 0;
    result := tmpl;
    while true
      invariant n <= limit && result == AfterTurns(body, tmpl, n)
      decreases limit - n
    {
      stopped := body(result);
      if !stopped.Continue? {
        assert StopsAfter(body, tmpl, n);
        break;
      }
      OneMoreTurn(body, tmpl, n);
      result := stopped.text;
      n := n + 1;
    }
  }

  method ReplaceVariables(text: string, vars: Vars) returns (result: string)
    ensures exists order :: IsKeyOrder(order, vars) && result == SubstituteInOrder(text, vars, order)
  {
    ghost var order := [];
    result := text;
    var keys := vars.Keys;
    while keys != {}
      invariant keys <= vars.Keys && Distinct(order)
      invariant forall k :: k in order <==> k in vars && k !in keys
      invariant result == SubstituteInOrder(text, vars, order)
      decreases keys
    {
      var key :| key in keys;
      result := ReplaceAll(result, VarToken(key), vars[key]);
      ghost var longer := order + [key];
      assert longer[..|longer| - 1] == order;
      order := longer;
      keys := keys - {key};
    }
  }
}
