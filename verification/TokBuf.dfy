/**
  The parser's token buffer: filled lazily from the scanner, compacted behind
  the read position, with a stack of saved positions for speculation. Every
  observation agrees with indexing the whole token stream.
 */
module TokBuf {

  datatype Token = Token(isEOF: bool, text: string, end: int)

  /** What is returned where no token is buffered. */
  const BareEOF: Token := Token(true, "", 0)

  /** A finite token stream ends with its only end-of-file token. */
  ghost predicate IsStream(s: seq<Token>) {
    |s| > 0 && forall i :: 0 <= i < |s| ==> (s[i].isEOF <==> i == |s| - 1)
  }

  function TokenAt(s: seq<Token>, i: nat): Token { if i < |s| then s[i] else Token(true, "", 0) }

  const CompactThreshold: nat := 64
  const ScanForwardLimit: nat := 1024

  datatype Verdict = Verdict(stop: bool, result: bool)

  type Pred = (Token, nat) -> Verdict

  /** The predicate neither stops at any of the first `k` tokens from `pos` nor is one the end. */
  ghost predicate Passed(s: seq<Token>, pos: nat, pred: Pred, k: nat) {
    forall i :: 0 <= i < k ==> PassedAt(s, pos, pred, i)
  }

  predicate PassedAt(s: seq<Token>, pos: nat, pred: Pred, i: nat) {
    !pred(TokenAt(s, pos + i), i).stop && !TokenAt(s, pos + i).isEOF
  }

  /** Some token within the limit makes the predicate stop with `true`, and
      nothing before it stops or ends the stream. */
  ghost predicate Finds(s: seq<Token>, pos: nat, pred: Pred) {
    exists k: nat :: k < 1024 && StopsAt(s, pos, pred, k)
  }

  ghost predicate StopsAt(s: seq<Token>, pos: nat, pred: Pred, k: nat) {
    Passed(s, pos, pred, k) && pred(TokenAt(s, pos + k), k) == Verdict(true, true)
  }

  class TokenBuffer {
    const stream: seq<Token>  // what the scanner will deliver
    var next: nat             // how much of it has been delivered
    var buf: seq<Token>
    var base: nat
    var pos: nat
    var prev: Token
    var marks: seq<nat>
    var eof: bool
    var compactCount: nat

    /** The buffer is the delivered stream from `base` on, and it still holds
        every position that can be read again. */
    ghost predicate Valid()
      reads this
    {
      && IsStream(stream)
      && base <= pos <= next <= |stream| && pos < |stream|
      && buf == stream[base..next]
      && (eof <==> next == |stream|)
      && (forall i :: 0 <= i < |marks| ==> base <= marks[i] <= pos)
      && (forall i, j :: 0 <= i < j < |marks| ==> marks[i] <= marks[j])
    }

    constructor (stream: seq<Token>)
      requires IsStream(stream)
      ensures Valid() && this.stream == stream && pos == 0 && marks == [] && next == 0 && compactCount == 0
    {
      this.stream := stream;
      next, buf, base, pos, marks, eof, compactCount := 0, [], 0, 0, [], false, 0;
      prev := BareEOF;
    }

    /** How much is delivered once position `idx` has been asked for: no more
        than that needs, and never past the end. */
    function Filled(before: nat, idx: int): nat
    {
      if idx < before then before else if idx + 1 < |stream| then idx + 1 else |stream|
    }

    method Fill(idx: int)
      requires Valid()
      modifies this`next, this`buf, this`eof
      ensures Valid() && next == Filled(old(next), idx)
    {
      while !eof && idx >= base + |buf|
        invariant Valid() && old(next) <= next <= Filled(old(next), idx)
        decreases |stream| - next
      {
        var tok := stream[next];
        assert stream[base..next + 1] == stream[base..next] + [tok];
        next := next + 1;
        buf := buf + [tok];
        if tok.isEOF { eof := true; }
      }
    }

    /** The token at a logical index: nothing that was dropped, otherwise the
        token of the stream. */
    method At(idx: int) returns (tok: Token)
      requires Valid()
      modifies this`next, this`buf, this`eof
      ensures Valid() && tok == if base <= idx < |stream| then stream[idx] else Token(true, "", 0)
      ensures next == if idx < base then old(next) else Filled(old(next), idx)
    {
      var physical := idx - base;
      if 0 <= physical < |buf| {
        return buf[physical];
      }
      Fill(idx);
      physical := idx - base;
      if physical < 0 || physical >= |buf| {
        return BareEOF;
      }
      return buf[physical];
    }

    method PeekAt(offset: nat) returns (tok: Token)
      requires Valid()
      modifies this`next, this`buf, this`eof
      ensures Valid() && tok == if pos + offset < |stream| then stream[pos + offset] else Token(true, "", 0)
      ensures next == Filled(old(next), pos + offset)
    {
      tok := At(pos + offset);
    }

    /** The first position that has to stay: the oldest mark or the previous token. */
    function Watermark(): int
      reads this
    {
      if marks != [] && marks[0] < pos - 1 then marks[0] else pos - 1
    }

    /** Drop what lies before that position, if it is 64 tokens or more. */
    method MaybeCompact()
      requires Valid()
      modifies this`buf, this`base
      ensures Valid() && base == if Watermark() - old(base) >= 64 then Watermark() else old(base)
    {
      var watermark: int := pos - 1;
      if watermark < base {
        return;
      }
      var i := 0;
      while i < |marks|
        invariant 0 <= i <= |marks|
        invariant base <= watermark < pos && forall j :: 0 <= j < i ==> watermark <= marks[j]
        invariant watermark == if i == 0 then pos - 1 else Watermark()
      {
        if marks[i] < watermark { watermark := marks[i]; }
        i := i + 1;
      }
      var drop := watermark - base;
      if drop >= CompactThreshold {
        buf := buf[drop..];
        base := base + drop;
      }
    }

    /** Consume one token; the end of file is never consumed. */
    method Advance() returns (tok: Token)
      requires Valid()
      modifies this`next, this`buf, this`base, this`pos, this`prev, this`eof, this`compactCount
      ensures Valid() && tok == old(stream[pos])
      ensures pos == if tok.isEOF then old(pos) else old(pos) + 1
      ensures !tok.isEOF ==> prev == stream[pos - 1] && base < pos
      ensures tok.isEOF ==> prev == old(prev) && base == old(base) && compactCount == old(compactCount)
      ensures !tok.isEOF && old(compactCount) + 1 < 64 ==> compactCount == old(compactCount) + 1 && base == old(base)
      ensures !tok.isEOF && old(compactCount) + 1 >= 64 ==>
        compactCount == 0 && base == if Watermark() - old(base) >= 64 then Watermark() else old(base)
    {
      tok := At(pos);
      if !tok.isEOF {
        prev := tok;
        pos := pos + 1;
        compactCount := compactCount + 1;
        if compactCount >= CompactThreshold {
          compactCount := 0;
          MaybeCompact();
        }
      }
    }

    method Save()
      requires Valid()
      modifies this`marks
      ensures Valid() && marks == old(marks) + [pos]
    {
      marks := marks + [pos];
    }

    /** Back to the last saved position, which is still within the buffer. */
    method Restore()
      requires Valid() && marks != []
      modifies this`marks, this`pos
      ensures Valid() && marks == old(marks[..|marks| - 1]) && pos == old(marks[|marks| - 1])
    {
      var n := |marks| - 1;
      pos := marks[n];
      marks := marks[..n];
    }

    method Commit()
      requires Valid() && marks != []
      modifies this`marks
      ensures Valid() && marks == old(marks[..|marks| - 1])
    {
      marks := marks[..|marks| - 1];
    }

    /** Look ahead for a token that makes `pred` stop. */
    method ScanForward(pred: Pred) returns (r: bool)
      requires Valid()
      modifies this`next, this`buf, this`eof
      ensures Valid() && r == Finds(stream, pos, pred)
    {
      for i := 0 to ScanForwardLimit
        invariant Valid() && Passed(stream, pos, pred, i)
      {
        var tok := At(pos + i);
        var v := pred(tok, i);
        if v.stop {
          FoundAt(i, pred);
          return v.result;
        }
        if tok.isEOF {
          FoundAt(i, pred);
          return false;
        }
      }
      forall k: nat | k < 1024 ensures !StopsAt(stream, pos, pred, k) {
        assert PassedAt(stream, pos, pred, k);
      }
      return false;
    }

    /** The first stop or end of file decides the search. */
    lemma FoundAt(k: nat, pred: Pred)
      requires k < 1024 && Passed(stream, pos, pred, k)
      requires pred(TokenAt(stream, pos + k), k).stop || TokenAt(stream, pos + k).isEOF
      ensures Finds(stream, pos, pred) <==> pred(TokenAt(stream, pos + k), k) == Verdict(true, true)
    {
      if StopsAt(stream, pos, pred, k) { assert Finds(stream, pos, pred); }
      assert !PassedAt(stream, pos, pred, k);
      if j: nat :| j < 1024 && StopsAt(stream, pos, pred, j) {
        assert !PassedAt(stream, pos, pred, j);
        assert j == k;
      }
    }
  }

  // ---- Whole runs ----

  datatype Op = DoPeek(offset: nat) | DoAdvance | DoSave | DoRestore | DoCommit | DoScan(pred: Pred)

  datatype Seen = SeenToken(tok: Token) | SeenBool(b: bool) | SeenNothing

  /** Saves are matched: nothing is restored or committed that was not saved. */
  predicate Balanced(ops: seq<Op>, depth: nat) {
    ops == [] ||
    match ops[0]
    case DoSave => Balanced(ops[1..], depth + 1)
    case DoRestore => depth > 0 && Balanced(ops[1..], depth - 1)
    case DoCommit => depth > 0 && Balanced(ops[1..], depth - 1)
    case _ => Balanced(ops[1..], depth)
  }

  /** What the same operations show on the plain token sequence. */
  ghost function Reference(s: seq<Token>, pos: nat, marks: seq<nat>, ops: seq<Op>): seq<Seen>
    requires Balanced(ops, |marks|)
    decreases |ops|
  {
    if ops == [] then []
    else
      var rest := ops[1..];
      match ops[0]
      case DoPeek(k) => [SeenToken(TokenAt(s, pos + k))] + Reference(s, pos, marks, rest)
      case DoAdvance =>
        var t := TokenAt(s, pos); [SeenToken(t)] + Reference(s, if t.isEOF then pos else pos + 1, marks, rest)
      case DoSave => [SeenNothing] + Reference(s, pos, marks + [pos], rest)
      case DoRestore => [SeenNothing] + Reference(s, marks[|marks| - 1], marks[..|marks| - 1], rest)
      case DoCommit => [SeenNothing] + Reference(s, pos, marks[..|marks| - 1], rest)
      case DoScan(pred) => [SeenBool(Finds(s, pos, pred))] + Reference(s, pos, marks, rest)
  }

  method Perform(tb: TokenBuffer, op: Op) returns (seen: Seen)
    requires tb.Valid() && Balanced([op], |tb.marks|)
    modifies tb
    ensures tb.Valid()
    ensures forall rest :: Balanced([op] + rest, old(|tb.marks|)) ==>
      Balanced(rest, |tb.marks|)
      && old(Reference(tb.stream, tb.pos, tb.marks, [op] + rest)) == [seen] + Reference(tb.stream, tb.pos, tb.marks, rest)
  {
    ghost var p, ms := tb.pos, tb.marks;
    match op {
      case DoPeek(k) => var t := tb.PeekAt(k); seen := SeenToken(t);
      case DoAdvance => var t := tb.Advance(); seen := SeenToken(t);
      case DoSave => tb.Save(); seen := SeenNothing;
      case DoRestore => tb.Restore(); seen := SeenNothing;
      case DoCommit => tb.Commit(); seen := SeenNothing;
      case DoScan(pred) => var b := tb.ScanForward(pred); seen := SeenBool(b);
    }
    forall rest | Balanced([op] + rest, |ms|)
      ensures Balanced(rest, |tb.marks|)
      ensures Reference(tb.stream, p, ms, [op] + rest) == [seen] + Reference(tb.stream, tb.pos, tb.marks, rest)
    {
      assert ([op] + rest)[1..] == rest && ([op] + rest)[0] == op;
    }
  }

  /** Any balanced sequence of operations on a new buffer shows exactly what it
      shows on the token sequence itself. */
  method RunAll(stream: seq<Token>, ops: seq<Op>) returns (seen: seq<Seen>)
    requires IsStream(stream) && Balanced(ops, 0)
    ensures seen == Reference(stream, 0, [], ops)
  {
    var tb := new TokenBuffer(stream);
    seen := [];
    for i := 0 to |ops|
      invariant tb.Valid() && tb.stream == stream && fresh(tb)
      invariant Balanced(ops[i..], |tb.marks|)
      invariant seen + Reference(stream, tb.pos, tb.marks, ops[i..]) == Reference(stream, 0, [], ops)
    {
      assert ops[i..] == [ops[i]] + ops[i + 1..];
      HeadBalanced(ops[i], ops[i + 1..], |tb.marks|);
      var s := Perform(tb, ops[i]);
      seen := seen + [s];
    }
  }

  lemma HeadBalanced(op: Op, rest: seq<Op>, depth: nat)
    requires Balanced([op] + rest, depth)
    ensures Balanced([op], depth)
  {
    assert ([op] + rest)[0] == op && [op][1..] == [];
  }
}
