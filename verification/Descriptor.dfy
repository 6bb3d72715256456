/** Printing a script tree inside a `tr(...)` descriptor and parsing it back
    (the TREE grammar of BIP 386). */
module Descriptor {
  import opened Wrappers
  import opened Taproot

  /** The unspendable internal key, so that only script paths can spend. */
  const NUMS_HEX := "50929b74c1a04954b78b4b6035e97a5e078a5a0f28ec96d547bfee9ace803ac0"

  // ---- Printing ----

  /** An inner node, `{left,right}`. */
  function Braced(left: string, right: string): string { "{" + left + "," + right + "}" }

  function PrintTree(t: TapTree<string>): string {
    match t
    case Tip(text) => text
    case Fork(l, r) => Braced(PrintTree(l), PrintTree(r))
  }

  /** The source's recursive printer over the leaf list. */
  function NestLeaves(leaves: seq<string>): string
    requires leaves != []
  {
    if |leaves| == 1 then leaves[0] else Braced(leaves[0], NestLeaves(leaves[1..]))
  }

  lemma {:induction false} NestLeavesPrintsRightComb(leaves: seq<string>)
    requires leaves != []
    ensures NestLeaves(leaves) == PrintTree(RightComb(leaves))
  {
    if |leaves| > 1 { NestLeavesPrintsRightComb(leaves[1..]); }
  }

  /** What stands before the tree under internal key `key`. */
  function Head(key: string): string { "tr(" + key + "," }

  function TrDescriptor(key: string, tree: string): string { Head(key) + tree + ")" }

  // ---- Leaf texts ----

  /** `s` closes `open` parentheses, has no brace, and no comma outside parentheses. */
  predicate Balanced(s: string, open: nat) {
    if s == [] then open == 0
    else if s[0] == '(' then Balanced(s[1..], open + 1)
    else if s[0] == ')' then open > 0 && Balanced(s[1..], open - 1)
    else if s[0] == ',' then open > 0 && Balanced(s[1..], open)
    else s[0] != '{' && s[0] != '}' && Balanced(s[1..], open)
  }

  predicate LeafText(s: string) { s != [] && Balanced(s, 0) }

  // ---- Parsing ----

  /** How many characters of `s` belong to the leaf it starts with. */
  function LeafLength(s: string, open: nat): (n: nat)
    ensures n <= |s|
  {
    if s == [] || s[0] == '{' || s[0] == '}' then 0
    else if s[0] == '(' then 1 + LeafLength(s[1..], open + 1)
    else if s[0] == ')' then if open == 0 then 0 else 1 + LeafLength(s[1..], open - 1)
    else if s[0] == ',' && open == 0 then 0
    else 1 + LeafLength(s[1..], open)
  }

  /** Reads one TREE, a script or `{TREE,TREE}`, and returns what follows it. */
  function ParseTree(s: string): (r: Option<(TapTree<string>, string)>)
    ensures r.Some? ==> |r.value.1| < |s|
    decreases |s|
  {
    if s == [] then None
    else if s[0] == '{' then
      match ParseTree(s[1..])
      case None => None
      case Some((l, afterLeft)) =>
        if afterLeft == [] || afterLeft[0] != ',' then None
        else
          match ParseTree(afterLeft[1..])
          case None => None
          case Some((r, afterRight)) =>
            if afterRight == [] || afterRight[0] != '}' then None else Some((Fork(l, r), afterRight[1..]))
    else
      var n := LeafLength(s, 0);
      if n > 0 && Balanced(s[..n], 0) then Some((Tip(s[..n]), s[n..])) else None
  }

  /** Reads a descriptor whose internal key is `key`. */
  function ParseDescriptor(key: string, s: string): Option<TapTree<string>> {
    var head := Head(key);
    if |s| < |head| || s[..|head|] != head then None
    else
      match ParseTree(s[|head|..])
      case None => None
      case Some((t, rest)) => if rest == ")" then Some(t) else None
  }

  // ---- Round trips ----

  predicate EndsLeaf(rest: string) { rest == [] || rest[0] in ",})" }

  lemma {:induction false} LeafLengthOfText(s: string, open: nat, rest: string)
    requires Balanced(s, open) && EndsLeaf(rest)
    ensures LeafLength(s + rest, open) == |s|
  {
    if s == [] {
      assert s + rest == rest;
    } else {
      assert (s + rest)[1..] == s[1..] + rest;
      LeafLengthOfText(s[1..], if s[0] == '(' then open + 1 else if s[0] == ')' then open - 1 else open, rest);
    }
  }

  ghost predicate AllLeafTexts(t: TapTree<string>) {
    match t
    case Tip(text) => LeafText(text)
    case Fork(l, r) => AllLeafTexts(l) && AllLeafTexts(r)
  }

  lemma ParseFork(s: string, l: TapTree<string>, afterLeft: string, r: TapTree<string>, afterRight: string)
    requires s != [] && s[0] == '{' && ParseTree(s[1..]) == Some((l, afterLeft))
    requires afterLeft != [] && afterLeft[0] == ',' && ParseTree(afterLeft[1..]) == Some((r, afterRight))
    requires afterRight != [] && afterRight[0] == '}'
    ensures ParseTree(s) == Some((Fork(l, r), afterRight[1..]))
  {
  }

  lemma ParseTip(text: string, rest: string)
    requires LeafText(text) && EndsLeaf(rest)
    ensures ParseTree(text + rest) == Some((Tip(text), rest))
  {
    var s := text + rest;
    LeafLengthOfText(text, 0, rest);
    assert s[0] == text[0];
    assert s[..|text|] == text && s[|text|..] == rest;
  }

  /** Parsing undoes printing, for trees of any shape. */
  lemma {:induction false} ParsePrint(t: TapTree<string>, rest: string)
    requires AllLeafTexts(t) && EndsLeaf(rest)
    ensures ParseTree(PrintTree(t) + rest) == Some((t, rest))
    decreases t
  {
    match t
    case Tip(text) => ParseTip(text, rest);
    case Fork(l, r) =>
      var afterRight := "}" + rest;
      var afterLeft := "," + (PrintTree(r) + afterRight);
      ParsePrint(r, afterRight);
      ParsePrint(l, afterLeft);
      PrintedFork(PrintTree(l), PrintTree(r), rest);
      ParseFork(PrintTree(t) + rest, l, afterLeft, r, afterRight);
  }

  lemma PrintedFork(l: string, r: string, rest: string)
    ensures var s := Braced(l, r) + rest;
            var afterLeft := "," + (r + ("}" + rest));
            s[0] == '{' && s[1..] == l + afterLeft && afterLeft[1..] == r + ("}" + rest) && ("}" + rest)[1..] == rest
  {
    assert Braced(l, r) + rest == "{" + (l + ("," + (r + ("}" + rest))));
  }

  lemma ParsedFork(s: string, l: TapTree<string>, r: TapTree<string>, rest: string)
    returns (afterLeft: string, afterRight: string)
    requires ParseTree(s) == Some((Fork(l, r), rest))
    ensures ParseTree(s[1..]) == Some((l, afterLeft)) && afterLeft != []
    ensures ParseTree(afterLeft[1..]) == Some((r, afterRight)) && afterRight != []
    ensures s == "{" + s[1..] && afterLeft == "," + afterLeft[1..] && afterRight == "}" + rest
  {
    afterLeft := ParseTree(s[1..]).value.1;
    afterRight := ParseTree(afterLeft[1..]).value.1;
    StartsWith(s, '{');
    StartsWith(afterLeft, ',');
    StartsWith(afterRight, '}');
  }

  lemma StartsWith(s: string, c: char)
    requires s != [] && s[0] == c
    ensures s == [c] + s[1..]
  {
  }

  /** Printing undoes parsing: nothing else than the printed text parses to a tree. */
  lemma {:induction false} PrintParse(s: string, t: TapTree<string>, rest: string)
    requires ParseTree(s) == Some((t, rest))
    ensures s == PrintTree(t) + rest && AllLeafTexts(t)
    decreases t
  {
    match t
    case Tip(text) =>
    case Fork(l, r) =>
      var afterLeft, afterRight := ParsedFork(s, l, r, rest);
      PrintParse(s[1..], l, afterLeft);
      PrintParse(afterLeft[1..], r, afterRight);
      JoinFork(s, PrintTree(l), PrintTree(r), afterLeft, afterRight, rest);
  }

  lemma JoinFork(s: string, l: string, r: string, afterLeft: string, afterRight: string, rest: string)
    requires s == "{" + (l + afterLeft) && afterLeft == "," + (r + afterRight) && afterRight == "}" + rest
    ensures s == Braced(l, r) + rest
  {
  }

  lemma HeadAndTail(key: string, tree: string)
    ensures var d, head := TrDescriptor(key, tree), Head(key);
            |head| <= |d| && d[..|head|] == head && d[|head|..] == tree + ")"
  {
    assert TrDescriptor(key, tree) == Head(key) + (tree + ")");
  }

  /** A descriptor parses to a tree exactly when it is that tree's printed form. */
  lemma DescriptorRoundTrip(key: string, t: TapTree<string>, s: string)
    requires AllLeafTexts(t)
    ensures ParseDescriptor(key, s) == Some(t) <==> s == TrDescriptor(key, PrintTree(t))
  {
    var head := Head(key);
    ParsePrint(t, ")");
    HeadAndTail(key, PrintTree(t));
    if ParseDescriptor(key, s) == Some(t) {
      PrintParse(s[|head|..], t, ")");
      assert s == s[..|head|] + s[|head|..];
      assert head + (PrintTree(t) + ")") == TrDescriptor(key, PrintTree(t));
    }
  }

  lemma {:induction false} RightCombLeafTexts(leaves: seq<string>)
    requires leaves != [] && forall i :: 0 <= i < |leaves| ==> LeafText(leaves[i])
    ensures AllLeafTexts(RightComb(leaves))
  {
    if |leaves| > 1 { RightCombLeafTexts(leaves[1..]); }
  }

  lemma PrintedCombParses(key: string, leaves: seq<string>)
    requires leaves != [] && forall i :: 0 <= i < |leaves| ==> LeafText(leaves[i])
    ensures ParseDescriptor(key, TrDescriptor(key, NestLeaves(leaves))) == Some(RightComb(leaves))
  {
    NestLeavesPrintsRightComb(leaves);
    RightCombLeafTexts(leaves);
    DescriptorRoundTrip(key, RightComb(leaves), TrDescriptor(key, NestLeaves(leaves)));
  }

  /** The printed leaf list and the depth schedule describe one tree, the right-leaning one. */
  lemma PrinterBuilderAgree(key: string, leaves: seq<string>)
    requires leaves != [] && forall i :: 0 <= i < |leaves| ==> LeafText(leaves[i])
    requires |leaves| <= MAX_DEPTH + 1
    ensures ParseDescriptor(key, TrDescriptor(key, NestLeaves(leaves))) == Some(RightComb(leaves))
    ensures BuildTree(Schedule(leaves)) == Some(RightComb(leaves))
  {
    ShortScheduleBuilds(leaves);
    PrintedCombParses(key, leaves);
  }
}
