/** Limits on the blocks of a portable Service document.

The check walks the summary and then the content with one shared block counter and
stops at the first excess; what it accepts depends neither on that order nor on the
order of the blocks.  Whether a text is valid within a length is a parameter.  */
module DocumentLimits {
  import opened Prelude

  datatype Block = Block(kind: string, text: string, title: string, blocks: seq<Block>, items: seq<string>)

  datatype Fault = Invalid | Unsupported

  type Texts = (string, nat) -> bool

  const MAX_BLOCKS: nat := 1024
  const MAX_DEPTH: nat := 8

  // ------------------------------------------------ what the limits bound

  /** Blocks of a list and, inside sections, at every level. */
  function Count(blocks: seq<Block>): nat {
    if blocks == [] then 0
    else 1 + (if blocks[0].kind == "section" then Count(blocks[0].blocks) else 0) + Count(blocks[1..])
  }

  predicate IsKnown(kind: string) {
    kind == "paragraph" || kind == "section" || kind == "bulleted_list" || kind == "numbered_list"
  }

  predicate IsWellFormedBlock(b: Block, depth: nat, texts: Texts)
    decreases b
  {
    if b.kind == "paragraph" then texts(b.text, 16384)
    else if b.kind == "section" then depth < MAX_DEPTH && texts(b.title, 256) && b.blocks != [] && IsWellFormed(b.blocks, depth + 1, texts)
    else IsKnown(b.kind) && 1 <= |b.items| <= 128 && forall i :: 0 <= i < |b.items| ==> texts(b.items[i], 16384)
  }

  predicate IsWellFormed(blocks: seq<Block>, depth: nat, texts: Texts)
    decreases blocks
  {
    forall i :: 0 <= i < |blocks| ==> IsWellFormedBlock(blocks[i], depth, texts)
  }

  function CountOne(b: Block): nat {
    1 + if b.kind == "section" then Count(b.blocks) else 0
  }

  lemma {:induction false} CountAppend(a: seq<Block>, b: seq<Block>)
    ensures Count(a + b) == Count(a) + Count(b)
  {
    if a == [] {
      assert a + b == b;
    } else {
      CountAppend(a[1..], b);
      assert (a + b)[1..] == a[1..] + b;
    }
  }

  lemma CountSplit(blocks: seq<Block>, i: nat)
    requires i < |blocks|
    ensures Count(blocks) == Count(blocks[..i]) + CountOne(blocks[i]) + Count(blocks[i + 1..])
    ensures Count(blocks[..i + 1]) == Count(blocks[..i]) + CountOne(blocks[i])
  {
    var b, rest := [blocks[i]], blocks[i + 1..];
    assert Count(b) == CountOne(blocks[i]) by { assert b[1..] == []; }
    assert blocks == blocks[..i] + (b + rest);
    CountAppend(blocks[..i], b + rest);
    CountAppend(b, rest);
    assert blocks[..i + 1] == blocks[..i] + b;
    CountAppend(blocks[..i], b);
  }

  // ------------------------------------------------------------- the check

  method ItemsAreTexts(items: seq<string>, texts: Texts) returns (ok: bool)
    ensures ok <==> forall i :: 0 <= i < |items| ==> texts(items[i], 16384)
  {
    for j := 0 to |items|
      invariant forall k :: 0 <= k < j ==> texts(items[k], 16384)
    {
      if !texts(items[j], 16384) { return false; }
    }
    return true;
  }

  /** Accepts exactly the well-formed lists whose blocks, together with those counted
      before, are within the limit. */
  method ValidateDocumentBlocks(blocks: seq<Block>, depth: nat, texts: Texts, count: Counter) returns (fault: Option<Fault>)
    requires count.n <= MAX_BLOCKS
    modifies count
    ensures fault.None? <==> IsWellFormed(blocks, depth, texts) && old(count.n) + Count(blocks) <= MAX_BLOCKS
    ensures fault.None? ==> count.n == old(count.n) + Count(blocks)
    decreases blocks
  {
    hide IsWellFormedBlock, CountOne;
    for i := 0 to |blocks|
      invariant count.n == old(count.n) + Count(blocks[..i]) <= MAX_BLOCKS
      invariant forall k :: 0 <= k < i ==> IsWellFormedBlock(blocks[k], depth, texts)
    {
      CountSplit(blocks, i);
      fault := ValidateBlock(blocks[i], depth, texts, count);
      if fault.Some? { return; }
    }
    assert blocks[..|blocks|] == blocks;
    return None;
  }

  /** The body of that loop. */
  method ValidateBlock(block: Block, depth: nat, texts: Texts, count: Counter) returns (fault: Option<Fault>)
    requires count.n <= MAX_BLOCKS
    modifies count
    ensures fault.None? <==> IsWellFormedBlock(block, depth, texts) && old(count.n) + CountOne(block) <= MAX_BLOCKS
    ensures fault.None? ==> count.n == old(count.n) + CountOne(block)
    ensures fault == Some(Unsupported) && block.kind != "section" ==> !IsKnown(block.kind)
    decreases block
  {
    count.n := count.n + 1;
    if count.n > MAX_BLOCKS { return Some(Invalid); }
    if block.kind == "paragraph" {
      if !texts(block.text, 16384) { return Some(Invalid); }
    } else if block.kind == "section" {
      if depth >= MAX_DEPTH || !texts(block.title, 256) || |block.blocks| == 0 { return Some(Invalid); }
      fault := ValidateDocumentBlocks(block.blocks, depth + 1, texts, count);
      return;
    } else if block.kind == "bulleted_list" || block.kind == "numbered_list" {
      if |block.items| == 0 || |block.items| > 128 { return Some(Invalid); }
      var ok := ItemsAreTexts(block.items, texts);
      if !ok { return Some(Invalid); }
    } else {
      return Some(Unsupported);
    }
    return None;
  }

  /** The document as a whole; its other fields are checked elsewhere. */
  predicate IsWithinLimits(summary: Option<seq<Block>>, content: seq<Block>, texts: Texts) {
    var front := if summary.Some? then summary.value else [];
    && content != [] && (summary.Some? ==> front != [])
    && IsWellFormed(front, 0, texts) && IsWellFormed(content, 0, texts)
    && Count(front) + Count(content) <= MAX_BLOCKS
  }

  method ValidatePortableBlocks(summary: Option<seq<Block>>, content: seq<Block>, texts: Texts) returns (fault: Option<Fault>)
    ensures fault.None? <==> IsWithinLimits(summary, content, texts)
  {
    if |content| == 0 || (summary.Some? && |summary.value| == 0) { return Some(Invalid); }
    var count := new Counter();
    var front := if summary.Some? then summary.value else [];
    fault := ValidateDocumentBlocks(front, 0, texts, count);
    if fault.Some? { return; }
    fault := ValidateDocumentBlocks(content, 0, texts, count);
  }

  // ---------------------------------------------------------------- order

  lemma {:induction false} CountIgnoresOrder(a: seq<Block>, b: seq<Block>)
    requires multiset(a) == multiset(b)
    ensures Count(a) == Count(b)
    decreases |a|
  {
    if a == [] {
      assert |multiset(b)| == |b| && |multiset(a)| == 0;
    } else {
      assert a[0] in multiset(b);
      var i :| 0 <= i < |b| && b[i] == a[0];
      CountSplit(b, i);
      CountAppend(b[..i], b[i + 1..]);
      WithoutOne(a, 0);
      WithoutOne(b, i);
      assert a[..0] + a[1..] == a[1..];
      CountIgnoresOrder(a[1..], b[..i] + b[i + 1..]);
    }
  }

  lemma WithoutOne(s: seq<Block>, i: nat)
    requires i < |s|
    ensures multiset(s[..i] + s[i + 1..]) == multiset(s) - multiset{s[i]}
  {
    assert s == s[..i] + [s[i]] + s[i + 1..];
  }

  /** Reordering blocks, or exchanging summary and content, changes nothing. */
  lemma LimitsIgnoreOrder(s: seq<Block>, c: seq<Block>, t: seq<Block>, d: seq<Block>, texts: Texts)
    requires s != [] && c != [] && t != [] && d != []
    requires multiset(s + c) == multiset(t + d)
    ensures IsWithinLimits(Some(s), c, texts) <==> IsWithinLimits(Some(t), d, texts)
  {
    CountIgnoresOrder(s + c, t + d);
    CountAppend(s, c);
    CountAppend(t, d);
    WellFormedIsMembership(s, c, texts);
    WellFormedIsMembership(t, d, texts);
    assert forall x :: x in multiset(s + c) <==> x in multiset(t + d);
  }

  lemma WellFormedIsMembership(a: seq<Block>, b: seq<Block>, texts: Texts)
    ensures IsWellFormed(a, 0, texts) && IsWellFormed(b, 0, texts) <==>
            forall x :: x in multiset(a + b) ==> IsWellFormedBlock(x, 0, texts)
  {
    hide IsWellFormedBlock;
    assert forall x :: x in multiset(a + b) <==> x in a || x in b;
    assert forall i :: 0 <= i < |a| ==> a[i] in a;
    assert forall i :: 0 <= i < |b| ==> b[i] in b;
  }

  /** Levels of sections inside one another. */
  predicate NestsAtMost(blocks: seq<Block>, n: nat)
    decreases blocks
  {
    forall i :: 0 <= i < |blocks| && blocks[i].kind == "section" ==> n > 0 && NestsAtMost(blocks[i].blocks, n - 1)
  }

  /** An accepted document has at most eight levels of sections. */
  lemma {:induction false} AcceptedNesting(blocks: seq<Block>, depth: nat, texts: Texts)
    requires depth <= MAX_DEPTH && IsWellFormed(blocks, depth, texts)
    ensures NestsAtMost(blocks, MAX_DEPTH - depth)
    decreases blocks
  {
    forall i | 0 <= i < |blocks| && blocks[i].kind == "section"
      ensures MAX_DEPTH - depth > 0 && NestsAtMost(blocks[i].blocks, MAX_DEPTH - depth - 1)
    {
      assert IsWellFormedBlock(blocks[i], depth, texts);
      AcceptedNesting(blocks[i].blocks, depth + 1, texts);
    }
  }
}
