/**
 * The loop of lex_into_vector (src/lexer.c): call chars_to_token at offset
 * `current`, append the node to the output vector and continue at the node's
 * end offset, until `current` reaches source_size - 1 (the source is expected
 * to end in a NUL byte, which is never lexed).
 */
module Driver {
  import opened CharTypes
  import opened Scanners
  import opened Tokens

  /**
   * How lex_into_vector ends, with the nodes written to the vector:
   *  - Lexed: the loop reached source_size - 1 and the vector goes to the callback;
   *  - Failed: a node had end offset -1 and lex_into_vector returned -1;
   *  - Loops: a zero node set `current` back to 0, so the loop starts over from
   *    its initial state and never ends (the model stops there instead).
   */
  datatype Outcome =
    | Lexed(tokens: seq<Node>)
    | Failed(tokens: seq<Node>)
    | Loops(tokens: seq<Node>)

  /** The same outcome with `prefix` written to the vector first. */
  function WithPrefix(prefix: seq<Node>, o: Outcome): Outcome
  {
    o.(tokens := prefix + o.tokens)
  }

  /** What the loop does from offset `current` on. */
  function LexFrom(s: seq<Byte>, current: nat): Outcome
    decreases |s| - current
  {
    if current >= |s| - 1 then Lexed([])
    else
      var node := CharsToToken(s, current);
      if node.endOffset == -1 then Failed([])
      else if node.endOffset <= current then Loops([node])
      else WithPrefix([node], LexFrom(s, node.endOffset))
  }

  /** What lex_into_vector does with the source s. */
  function Lex(s: seq<Byte>): Outcome
  {
    LexFrom(s, 0)
  }

  /** One pass of the loop, with `vector` already written: what the rest of the run adds to it. */
  lemma LexStep(s: seq<Byte>, vector: seq<Node>, current: nat)
    requires current < |s| - 1
    ensures var node := CharsToToken(s, current);
      && (node.endOffset == -1 ==> WithPrefix(vector, LexFrom(s, current)) == Failed(vector))
      && (node.endOffset != -1 && node.endOffset <= current ==>
            WithPrefix(vector, LexFrom(s, current)) == Loops(vector + [node]))
      && (node.endOffset > current ==>
            WithPrefix(vector, LexFrom(s, current)) == WithPrefix(vector + [node], LexFrom(s, node.endOffset)))
  {
    var node := CharsToToken(s, current);
    if node.endOffset > current {
      var rest := LexFrom(s, node.endOffset);
      assert vector + ([node] + rest.tokens) == (vector + [node]) + rest.tokens;
    } else if node.endOffset == -1 {
      assert vector + [] == vector;
    }
  }

  method LexIntoVector(s: seq<Byte>) returns (o: Outcome)
    ensures o == Lex(s)
  {
    var current: nat := 0;
    var vector: seq<Node> := [];
    while current < |s| - 1
      invariant Lex(s) == WithPrefix(vector, LexFrom(s, current))
      decreases |s| - current
    {
      var node := ReadToken(s, current);
      LexStep(s, vector, current);
      if node.endOffset == -1 {
        return Failed(vector);
      }
      vector := vector + [node];
      if node.endOffset <= current {
        // the source sets current to node.endOffset, which is 0 here, and goes round again
        return Loops(vector);
      }
      current := node.endOffset;
    }
    assert vector + [] == vector;
    return Lexed(vector);
  }

  /** The offset after the last node of t, or `from` when t is empty. */
  function Reached(t: seq<Node>, from: int): int
  {
    if |t| == 0 then from else t[|t| - 1].endOffset
  }

  /**
   * The nodes of t tile the source from offset `from`: the first starts at
   * `from` and is not empty, and the rest tile from where it ends.
   */
  ghost predicate Tiles(t: seq<Node>, from: int)
    decreases |t|
  {
    |t| == 0 || (t[0].startOffset == from < t[0].endOffset && Tiles(t[1..], t[0].endOffset))
  }

  /** Every node of t is what chars_to_token returns at its own start, before source_size - 1. */
  ghost predicate FromSource(s: seq<Byte>, t: seq<Node>)
    decreases |t|
  {
    |t| == 0 || (0 <= t[0].startOffset < |s| - 1 && t[0] == CharsToToken(s, t[0].startOffset) && FromSource(s, t[1..]))
  }

  /** Tiling by index: no gaps, no overlaps and no empty node. */
  lemma {:induction false} TilesIndexed(t: seq<Node>, from: int)
    requires Tiles(t, from)
    ensures |t| > 0 ==> t[0].startOffset == from
    ensures forall k :: 0 < k < |t| ==> t[k].startOffset == t[k - 1].endOffset
    ensures forall k :: 0 <= k < |t| ==> t[k].startOffset < t[k].endOffset
    ensures Reached(t, from) >= from
    decreases |t|
  {
    if |t| > 0 {
      TilesIndexed(t[1..], t[0].endOffset);
      forall k | 0 < k < |t|
        ensures t[k].startOffset == t[k - 1].endOffset
      {
        if k > 1 {
          assert t[k] == t[1..][k - 1] && t[k - 1] == t[1..][k - 2];
        }
      }
    }
  }

  /** The outcome of the loop from offset c, described by its nodes. */
  ghost predicate OutcomeShape(s: seq<Byte>, c: nat, o: Outcome)
  {
    match o
    case Lexed(t) => Tiles(t, c) && FromSource(s, t) && Reached(t, c) >= |s| - 1
    case Failed(t) =>
      Tiles(t, c) && FromSource(s, t)
      && var p := Reached(t, c); 0 <= p < |s| - 1 && CharsToToken(s, p).endOffset == -1
    case Loops(t) =>
      |t| > 0 && t[|t| - 1] == ZeroNode
      && var w := t[..|t| - 1];
        Tiles(w, c) && FromSource(s, w)
        && var p := Reached(w, c);
          0 <= p < |s| - 1 && (TypeAt(s, p) == CharNull || TypeAt(s, p) == CharUtf8Cont)
  }

  /** A node that makes progress, written before an outcome of the loop from where it ends. */
  lemma PrefixShape(s: seq<Byte>, c: nat, node: Node, o: Outcome)
    requires c < |s| - 1 && node == CharsToToken(s, c) && node.startOffset == c < node.endOffset
    requires OutcomeShape(s, node.endOffset, o)
    ensures OutcomeShape(s, c, WithPrefix([node], o))
  {
    var t := [node] + o.tokens;
    assert t[1..] == o.tokens;
    if o.Loops? {
      var w := o.tokens[..|o.tokens| - 1];
      assert t[..|t| - 1] == [node] + w;
      assert ([node] + w)[1..] == w;
    }
  }

  lemma {:induction false} LexFromShape(s: seq<Byte>, c: nat)
    ensures OutcomeShape(s, c, LexFrom(s, c))
    decreases |s| - c
  {
    if c < |s| - 1 {
      var node := CharsToToken(s, c);
      TokenProgress(s, c);
      ZeroNodeExactly(s, c);
      if node.endOffset != -1 && node.endOffset > c {
        LexFromShape(s, node.endOffset);
        PrefixShape(s, c, node, LexFrom(s, node.endOffset));
      }
    }
  }

  /**
   * The tiling of lex_into_vector's output: the first node starts at 0, each
   * node starts where the previous one ended and makes progress, and each is
   * what chars_to_token returns there. A run that completes reaches
   * source_size - 1; a failed one stops at a node whose end is -1; a looping
   * one stops at a zero node, produced by a NUL or continuation byte.
   */
  lemma LexTiles(s: seq<Byte>)
    ensures OutcomeShape(s, 0, Lex(s))
  {
    LexFromShape(s, 0);
  }

  /**
   * Non-progress of the zero node: the node that ends a looping run has end
   * offset 0, and the loop condition still holds at 0. The source sets current
   * to that end, so it goes round again from offset 0 and appends the same
   * nodes once more after those already written.
   */
  lemma LoopsRestart(s: seq<Byte>)
    requires Lex(s).Loops?
    ensures var t := Lex(s).tokens;
      && |t| > 0 && t[|t| - 1].endOffset == 0 && 0 < |s| - 1
      && WithPrefix(t, LexFrom(s, t[|t| - 1].endOffset)) == Loops(t + t)
  {
    LexTiles(s);
  }
}
