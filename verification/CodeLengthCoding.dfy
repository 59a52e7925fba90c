// The run-length tokens as bits: what the encoder sends for a tree, and how the decoder's state
// machine reads the lengths of both trees back.

module CodeLengthCoding {
  import opened Arithmetic
  import opened CanonicalCodes
  import opened BitStrings
  import opened CodeLengthRuns
  import opened HuffmanCodec
  import opened BitPacking
  import opened BitReading

  // ---------- Fields ----------

  // The symbol's code, and the repeat count in the bits after it.
  function FieldsOf(t: Token, codes: seq<Codeword>): seq<Codeword>
    requires |codes| == 19 && Symbol(t) < 19
  {
    [codes[Symbol(t)]] + Repeat(t)
  }

  function Repeat(t: Token): seq<Codeword> {
    match t
    case Len(l) => []
    case Again(n) => [Codeword(if n >= 3 then n - 3 else 0, 2)]
    case Zeros(n) => [Codeword(if n >= 3 then n - 3 else 0, 3)]
    case ManyZeros(n) => [Codeword(if n >= 11 then n - 11 else 0, 7)]
  }

  predicate Codable(toks: seq<Token>) {
    forall k :: 0 <= k < |toks| ==> Symbol(toks[k]) < 19
  }

  function AllFields(toks: seq<Token>, codes: seq<Codeword>): seq<Codeword>
    requires |codes| == 19 && Codable(toks)
  {
    if toks == [] then [] else FieldsOf(toks[0], codes) + AllFields(toks[1..], codes)
  }

  lemma {:induction false} AllFieldsConcat(a: seq<Token>, b: seq<Token>, codes: seq<Codeword>)
    requires |codes| == 19 && Codable(a) && Codable(b)
    ensures Codable(a + b) && AllFields(a + b, codes) == AllFields(a, codes) + AllFields(b, codes)
    decreases |a|
  {
    if a == [] {
      assert a + b == b;
    } else {
      assert (a + b)[1..] == a[1..] + b;
      AllFieldsConcat(a[1..], b, codes);
      hide FieldsOf;
    }
  }

  lemma OneField(t: Token, codes: seq<Codeword>)
    requires |codes| == 19 && Symbol(t) < 19
    ensures AllFields([t], codes) == FieldsOf(t, codes)
  {
    assert [t][1..] == [];
    assert FieldsOf(t, codes) + [] == FieldsOf(t, codes);
  }

  function Times(c: Codeword, n: nat): (r: seq<Codeword>)
    ensures |r| == n
  {
    if n == 0 then [] else [c] + Times(c, n - 1)
  }

  lemma {:induction false} SinglesCodable(l: nat, n: nat)
    requires l < 16
    ensures Codable(Singles(l, n))
  {
    if n > 0 { SinglesCodable(l, n - 1); }
  }

  lemma {:induction false} TimesLast(c: Codeword, n: nat)
    ensures Times(c, n) + [c] == Times(c, n + 1)
  {
    if n > 0 {
      TimesLast(c, n - 1);
      assert [c] + Times(c, n - 1) + [c] == [c] + (Times(c, n - 1) + [c]);
    }
  }

  lemma SingleField(l: nat, codes: seq<Codeword>)
    requires |codes| == 19 && l < 16
    ensures Codable([Len(l)]) && AllFields([Len(l)], codes) == [codes[l]]
  {
    OneField(Len(l), codes);
    assert FieldsOf(Len(l), codes) == [codes[l]];
  }

  lemma {:induction false} SinglesFields(l: nat, n: nat, codes: seq<Codeword>)
    requires |codes| == 19 && l < 16
    ensures Codable(Singles(l, n)) && AllFields(Singles(l, n), codes) == Times(codes[l], n)
  {
    SinglesCodable(l, n);
    if n > 0 {
      SinglesFields(l, n - 1, codes);
      SingleField(l, codes);
      SinglesCodable(l, n - 1);
      AllFieldsConcat(Singles(l, n - 1), [Len(l)], codes);
      TimesLast(codes[l], n - 1);
      hide AllFields, Codable, Times;
    }
  }

  lemma FlushCodable(cur: nat, count: nat, prev: int, least: nat)
    requires cur < 16
    ensures Codable(Flush(cur, count, prev, least))
  {
    SinglesCodable(cur, count);
  }

  lemma {:induction false} ScanCodable(lens: seq<nat>, n: nat, count: nat, prev: int, most: nat, least: nat, sentinel: nat)
    requires n <= |lens| && AtMost(lens, 15)
    ensures Codable(Scan(lens, n, count, prev, most, least, sentinel))
    decreases |lens| - n
  {
    if n < |lens| {
      hide Flush, Scan, Codable;
      var cur, next := lens[n], Next(lens, n, sentinel);
      ScanOne(lens, n, count, prev, most, least, sentinel);
      if GoesOn(lens, n, count, most, sentinel) {
        ScanCodable(lens, n + 1, count + 1, prev, most, least, sentinel);
      } else {
        ScanCodable(lens, n + 1, 0, cur, Longest(cur, next), Shortest(cur, next), sentinel);
        FlushCodable(cur, count + 1, prev, least);
        CodableConcat(Flush(cur, count + 1, prev, least), Scan(lens, n + 1, 0, cur, Longest(cur, next), Shortest(cur, next), sentinel));
      }
    } else {
      ScanAtEnd(lens);
    }
  }

  lemma CodableConcat(a: seq<Token>, b: seq<Token>)
    requires Codable(a) && Codable(b)
    ensures Codable(a + b)
  {
  }

  // ---------- sendTrees, one tree ----------

  // Fields sent and fields to come.
  ghost predicate Sending(out: seq<Codeword>, ahead: seq<Codeword>, toks: seq<Token>, total: seq<Codeword>, codes: seq<Codeword>) {
    |codes| == 19 && Codable(toks) && out + ahead + AllFields(toks, codes) == total
  }

  lemma SendingFlush(out: seq<Codeword>, fields: seq<Codeword>, flush: seq<Token>, rest: seq<Token>, total: seq<Codeword>, codes: seq<Codeword>)
    requires Sending(out, [], flush + rest, total, codes) && Codable(flush) && Codable(rest) && AllFields(flush, codes) == fields
    ensures Sending(out, fields, rest, total, codes)
  {
    hide AllFields, Codable;
    AllFieldsConcat(flush, rest, codes);
    Regroup(out, fields, AllFields(rest, codes));
  }

  lemma Regroup(a: seq<Codeword>, b: seq<Codeword>, c: seq<Codeword>)
    ensures a + [] + (b + c) == a + b + c
  {
  }

  lemma SendingMoves(out: seq<Codeword>, a: seq<Codeword>, b: seq<Codeword>, toks: seq<Token>, total: seq<Codeword>, codes: seq<Codeword>)
    requires Sending(out, a + b, toks, total, codes)
    ensures Sending(out + a, b, toks, total, codes)
  {
    hide AllFields;
    assert out + (a + b) == out + a + b;
  }

  // The fields of a repetition.
  lemma RunFields(cur: nat, count: nat, prev: int, most: nat, least: nat, codes: seq<Codeword>)
    requires cur < 16 && |codes| == 19 && Fitting(cur, prev, most, least) && least <= count
    ensures Codable(Flush(cur, count, prev, least))
    ensures AllFields(Flush(cur, count, prev, least), codes)
         == if cur != 0 then (if cur != prev then [codes[cur], codes[16], Codeword(count - 4, 2)] else [codes[16], Codeword(count - 3, 2)])
            else if count <= 10 then [codes[17], Codeword(count - 3, 3)] else [codes[18], Codeword(count - 11, 7)]
  {
    if cur != 0 && cur != prev {
      var a, b := Len(cur), Again(count - 1);
      assert [a, b][1..] == [b];
      OneField(b, codes);
    } else {
      OneField(Flush(cur, count, prev, least)[0], codes);
    }
  }

  lemma ScanSplits(lens: seq<nat>, n: nat, count: nat, prev: int, most: nat, least: nat)
    requires n < |lens| && AtMost(lens, 15) && !GoesOn(lens, n, count, most, PADDING)
    ensures var cur, next := lens[n], Next(lens, n, PADDING);
            var rest := Scan(lens, n + 1, 0, cur, Longest(cur, next), Shortest(cur, next), PADDING);
            Scan(lens, n, count, prev, most, least, PADDING) == Flush(cur, count + 1, prev, least) + rest
            && Codable(rest) && Codable(Flush(cur, count + 1, prev, least))
  {
    hide Flush, Codable, Longest, Shortest;
    var cur, next := lens[n], Next(lens, n, PADDING);
    ScanOne(lens, n, count, prev, most, least, PADDING);
    ScanCodable(lens, n + 1, 0, cur, Longest(cur, next), Shortest(cur, next), PADDING);
    FlushCodable(cur, count + 1, prev, least);
  }

  method SendRun(out0: seq<Codeword>, cur: nat, count: nat, prev: int, least: nat, codes: seq<Codeword>,
                 ghost most: nat, ghost rest: seq<Token>, ghost total: seq<Codeword>)
    returns (out: seq<Codeword>)
    requires cur < 16 && |codes| == 19 && Fitting(cur, prev, most, least) && least <= count
    requires Codable(rest) && Codable(Flush(cur, count, prev, least)) && Sending(out0, [], Flush(cur, count, prev, least) + rest, total, codes)
    ensures Sending(out, [], rest, total, codes)
  {
    RunFields(cur, count, prev, most, least, codes);
    ghost var fields := AllFields(Flush(cur, count, prev, least), codes);
    SendingFlush(out0, fields, Flush(cur, count, prev, least), rest, total, codes);
    hide Flush, AllFields, Codable, Sending;
    out := out0;
    if cur != 0 {
      var left := count;
      if cur != prev {
        out := out + [codes[cur]];
        left := left - 1;
      }
      out := out + [codes[16]];
      out := out + [Codeword(left - 3, 2)];
    } else if count <= 10 {
      out := out + [codes[17]];
      out := out + [Codeword(count - 3, 3)];
    } else {
      out := out + [codes[18]];
      out := out + [Codeword(count - 11, 7)];
    }
    assert out == out0 + fields && fields + [] == fields;
    SendingMoves(out0, fields, [], rest, total, codes);
  }

  // Short runs go out one length at a time, up to three per step.
  method SendSingles(out0: seq<Codeword>, temp: Codeword, repCnt0: nat, ghost rest: seq<Token>, ghost total: seq<Codeword>, ghost codes: seq<Codeword>)
    returns (out: seq<Codeword>, repCnt: nat)
    requires Sending(out0, Times(temp, repCnt0), rest, total, codes)
    ensures Sending(out, Times(temp, repCnt), rest, total, codes) && (repCnt0 > 0 ==> repCnt < repCnt0) && (repCnt0 <= 3 ==> repCnt == 0)
  {
    out, repCnt := out0, repCnt0;
    hide Sending;
    var k := 0;
    while k < 3
      invariant 0 <= k <= 3 && repCnt == if repCnt0 > k then repCnt0 - k else 0
      invariant Sending(out, Times(temp, repCnt), rest, total, codes)
    {
      if repCnt > 0 {
        SendingMoves(out, [temp], Times(temp, repCnt - 1), rest, total, codes);
        repCnt := repCnt - 1;
        out := out + [temp];
      }
      k := k + 1;
    }
  }

  lemma NothingAhead(c: Codeword)
    ensures Times(c, 0) == []
  {
  }

  ghost predicate Midway(out: seq<Codeword>, lens: seq<nat>, n: nat, count: nat, prev: int, most: nat, least: nat, total: seq<Codeword>, codes: seq<Codeword>) {
    && n <= |lens| && (n < |lens| ==> Fitting(lens[n], prev, most, least))
    && Sending(out, [], Scan(lens, n, count, prev, most, least, PADDING), total, codes)
  }

  // One position: nothing goes out yet, or the run held back does.
  method SendStep(lens: seq<nat>, n: nat, count0: nat, prev: int, most: nat, least: nat, codes: seq<Codeword>, out0: seq<Codeword>,
                  ghost total: seq<Codeword>)
    returns (out: seq<Codeword>, hold: bool, repCnt: nat, temp: Codeword)
    requires n < |lens| && AtMost(lens, 15) && lens[|lens| - 1] != PADDING && |codes| == 19 && Midway(out0, lens, n, count0, prev, most, least, total, codes)
    ensures var cur, next := lens[n], Next(lens, n, PADDING);
            if hold then Midway(out, lens, n + 1, count0 + 1, prev, most, least, total, codes)
            else Sending(out, Times(temp, repCnt), Scan(lens, n + 1, 0, cur, Longest(cur, next), Shortest(cur, next), PADDING), total, codes)
    ensures hold ==> repCnt == 0 && GoesOn(lens, n, count0, most, PADDING)
    ensures repCnt <= 3
  {
    hide Scan, Flush, Sending, Codable, AllFields;
    out, hold, repCnt, temp := out0, false, 0, codes[0];
    var cur, next := lens[n], Next(lens, n, PADDING);
    var count := count0 + 1;
    if count < most && cur == next {
      hold := true;
      ScanOne(lens, n, count0, prev, most, least, PADDING);
    } else {
      ScanSplits(lens, n, count0, prev, most, least);
      ghost var rest := Scan(lens, n + 1, 0, cur, Longest(cur, next), Shortest(cur, next), PADDING);
      if count < least {
        temp := codes[cur];
        repCnt := count;
        SinglesFields(cur, count, codes);
        FlushSingles(cur, count, prev, least);
        SendingFlush(out, Times(temp, count), Flush(cur, count, prev, least), rest, total, codes);
      } else {
        out := SendRun(out, cur, count, prev, least, codes, most, rest, total);
        NothingAhead(temp);
      }
    }
  }

  lemma FlushSingles(cur: nat, count: nat, prev: int, least: nat)
    requires count < least
    ensures Flush(cur, count, prev, least) == Singles(cur, count)
  {
  }

  // Starting from 0 as the last length sent is starting from none: only nonzero lengths repeat.
  lemma {:induction false} NoneSent(lens: seq<nat>, n: nat, count: nat, most: nat, least: nat, sentinel: nat)
    requires n <= |lens|
    ensures Scan(lens, n, count, -1, most, least, sentinel) == Scan(lens, n, count, 0, most, least, sentinel)
    decreases |lens| - n
  {
    if n < |lens| {
      hide Scan;
      ScanOne(lens, n, count, -1, most, least, sentinel);
      ScanOne(lens, n, count, 0, most, least, sentinel);
      if GoesOn(lens, n, count, most, sentinel) { NoneSent(lens, n + 1, count + 1, most, least, sentinel); }
    } else {
      ScanAtEnd(lens);
    }
  }

  lemma MidwayStarts(lens: seq<nat>, codes: seq<Codeword>)
    requires lens != [] && AtMost(lens, 15) && |codes| == 19
    ensures Codable(Tokens(lens, PADDING))
    ensures Midway([], lens, 0, 0, 0, FirstLongest(lens), FirstShortest(lens), AllFields(Tokens(lens, PADDING), codes), codes)
  {
    NoneSent(lens, 0, 0, FirstLongest(lens), FirstShortest(lens), PADDING);
    ScanCodable(lens, 0, 0, -1, FirstLongest(lens), FirstShortest(lens), PADDING);
    hide Scan, AllFields, Codable;
    assert [] + [] + AllFields(Tokens(lens, PADDING), codes) == AllFields(Tokens(lens, PADDING), codes);
  }

  lemma MidwayRestarts(out: seq<Codeword>, lens: seq<nat>, n: nat, cur: nat, next: nat, temp: Codeword, total: seq<Codeword>, codes: seq<Codeword>)
    requires n < |lens| && cur == lens[n] && next == Next(lens, n, PADDING)
    requires Sending(out, Times(temp, 0), Scan(lens, n + 1, 0, cur, Longest(cur, next), Shortest(cur, next), PADDING), total, codes)
    ensures Midway(out, lens, n + 1, 0, cur, Longest(cur, next), Shortest(cur, next), total, codes)
  {
    hide Scan, Sending;
    NothingAhead(temp);
  }

  lemma MidwayEnds(out: seq<Codeword>, lens: seq<nat>, count: nat, prev: int, most: nat, least: nat, total: seq<Codeword>, codes: seq<Codeword>)
    requires Midway(out, lens, |lens|, count, prev, most, least, total, codes)
    ensures out == total
  {
    ScanAtEnd(lens);
    assert out + [] + [] == out;
  }

  method RunLimits(curlen: nat, nextlen: nat) returns (most: nat, least: nat)
    ensures most == Longest(curlen, nextlen) && least == Shortest(curlen, nextlen)
  {
    if nextlen == 0 {
      most, least := 138, 3;
    } else if curlen == nextlen {
      most, least := 6, 3;
    } else {
      most, least := 7, 4;
    }
  }

  // The fields of the tokens, in order. What follows the last length is a length of zero.
  method SendTree(lens: seq<nat>, codes: seq<Codeword>) returns (out: seq<Codeword>)
    requires lens != [] && AtMost(lens, 15) && lens[|lens| - 1] != PADDING && |codes| == 19
    ensures Codable(Tokens(lens, PADDING)) && out == AllFields(Tokens(lens, PADDING), codes)
  {
    out := [];
    MidwayStarts(lens, codes);
    ghost var total := AllFields(Tokens(lens, PADDING), codes);
    var prevlen: int, count: nat, most: nat, least: nat := 0, 0, 7, 4;
    if lens[0] == 0 { most, least := 138, 3; }
    assert most == FirstLongest(lens) && least == FirstShortest(lens);
    hide *;
    var repCnt, temp, n := 0, codes[0], 0;
    var curlen, nextlen: nat := 0, lens[0];
    while n < |lens| || repCnt > 0
      invariant 0 <= n <= |lens| && repCnt <= 3
      invariant repCnt == 0 ==> Midway(out, lens, n, count, prevlen, most, least, total, codes)
      invariant repCnt > 0 ==> n > 0 && curlen == lens[n - 1] && nextlen == Next(lens, n - 1, PADDING)
      invariant repCnt > 0 ==> Sending(out, Times(temp, repCnt), Scan(lens, n, 0, curlen, Longest(curlen, nextlen), Shortest(curlen, nextlen), PADDING), total, codes)
      decreases |lens| - n, repCnt
    {
      var refCntFlag := true;
      if repCnt != 0 {
        out, repCnt := SendSingles(out, temp, repCnt,
                                   Scan(lens, n, 0, curlen, Longest(curlen, nextlen), Shortest(curlen, nextlen), PADDING), total, codes);
        refCntFlag := repCnt == 0;
      } else {
        curlen := lens[n];
        nextlen := Next(lens, n, PADDING);
        var hold;
        out, hold, repCnt, temp := SendStep(lens, n, count, prevlen, most, least, codes, out, total);
        count := count + 1;
        refCntFlag := !hold && repCnt == 0;
        n := n + 1;
      }
      if refCntFlag {
        MidwayRestarts(out, lens, n - 1, curlen, nextlen, temp, total, codes);
        count := 0;
        prevlen := curlen;
        most, least := RunLimits(curlen, nextlen);
      }
    }
    MidwayEnds(out, lens, count, prevlen, most, least, total, codes);
  }

  // ---------- Bits ----------

  function TreeBits(toks: seq<Token>, codes: seq<Codeword>): seq<Bit>
    requires |codes| == 19 && Codable(toks)
  {
    FieldBits(AllFields(toks, codes))
  }

  // The repeat count of a token, and how many bits it takes.
  function ExtraBits(t: Token): nat {
    match t case Len(l) => 0 case Again(n) => 2 case Zeros(n) => 3 case ManyZeros(n) => 7
  }

  function Base(t: Token): nat {
    match t case Len(l) => 1 case Again(n) => 3 case Zeros(n) => 3 case ManyZeros(n) => 11
  }

  predicate WellFormed(t: Token) {
    match t
    case Len(l) => l < 16
    case Again(n) => 3 <= n <= 6
    case Zeros(n) => 3 <= n <= 10
    case ManyZeros(n) => 11 <= n <= 138
  }

  // The repeat symbols of section 3.2.7 of RFC 1951: how many bits follow each, and the count they stand for.
  function RepeatBits(symbol: nat): nat {
    if symbol == 16 then 2 else if symbol == 17 then 3 else if symbol == 18 then 7 else 0
  }

  function RepeatCount(symbol: nat, v: nat): nat {
    if symbol == 18 then 11 + v else 3 + v
  }

  // What is sent behind a symbol is read as the count meant.
  lemma RepeatByFormat(t: Token)
    requires WellFormed(t)
    ensures Symbol(t) < 16 <==> t.Len?
    ensures t.Len? ==> Repeat(t) == []
    ensures !t.Len? ==> |Repeat(t)| == 1 && Repeat(t)[0].bitlength == RepeatBits(Symbol(t))
                        && Repeat(t)[0].codeword < Pow2(RepeatBits(Symbol(t))) && RepeatCount(Symbol(t), Repeat(t)[0].codeword) == t.n
    ensures t.Again? ==> Symbol(t) == 16
    ensures t.Zeros? ==> Symbol(t) == 17
    ensures t.ManyZeros? ==> Symbol(t) == 18
  {
    assert Pow2(2) == 4 && Pow2(3) == 8;
    assert Pow2(5) == 32;
    assert Pow2(7) == 128;
  }

  function Amount(t: Token): nat {
    match t case Len(l) => 1 case Again(n) => n case Zeros(n) => n case ManyZeros(n) => n
  }

  lemma TokenBits(t: Token, codes: seq<Codeword>)
    requires |codes| == 19 && WellFormed(t)
    ensures Symbol(t) < 19 && Base(t) <= Amount(t) && Amount(t) - Base(t) < Pow2(ExtraBits(t))
    ensures var c := codes[Symbol(t)];
            FieldBits(FieldsOf(t, codes)) == LowBits(c.codeword, c.bitlength) + LowBits(Amount(t) - Base(t), ExtraBits(t))
  {
    assert Pow2(2) == 4 && Pow2(3) == 8;
    assert Pow2(7) == 128;
    var c := codes[Symbol(t)];
    FieldBitsConcat([c], Repeat(t));
    OneFieldBits(c);
    if !t.Len? { OneFieldBits(Repeat(t)[0]); }
  }

  lemma OneFieldBits(c: Codeword)
    ensures FieldBits([c]) == LowBits(c.codeword, c.bitlength)
  {
    assert [c][1..] == [];
    assert LowBits(c.codeword, c.bitlength) + [] == LowBits(c.codeword, c.bitlength);
  }

  lemma TreeBitsFirst(toks: seq<Token>, codes: seq<Codeword>)
    requires |codes| == 19 && Codable(toks) && toks != []
    ensures TreeBits(toks, codes) == FieldBits(FieldsOf(toks[0], codes)) + TreeBits(toks[1..], codes)
  {
    FieldBitsConcat(FieldsOf(toks[0], codes), AllFields(toks[1..], codes));
  }

  // ---------- Well-formed tokens ----------

  predicate AllWellFormed(toks: seq<Token>) {
    forall k :: 0 <= k < |toks| ==> WellFormed(toks[k])
  }

  lemma {:induction false} SinglesWellFormed(l: nat, n: nat)
    requires l < 16
    ensures AllWellFormed(Singles(l, n))
  {
    if n > 0 { SinglesWellFormed(l, n - 1); }
  }

  lemma FlushWellFormed(cur: nat, count: nat, prev: int, most: nat, least: nat)
    requires cur < 16 && Fitting(cur, prev, most, least) && count <= most
    ensures AllWellFormed(Flush(cur, count, prev, least))
  {
    SinglesWellFormed(cur, count);
  }

  lemma {:induction false} ScanWellFormed(lens: seq<nat>, n: nat, count: nat, prev: int, most: nat, least: nat)
    requires n <= |lens| && AtMost(lens, 15) && (n < |lens| ==> Fitting(lens[n], prev, most, least) && count < most)
    ensures AllWellFormed(Scan(lens, n, count, prev, most, least, PADDING))
    decreases |lens| - n
  {
    if n < |lens| {
      hide Flush, Scan;
      var cur, next := lens[n], Next(lens, n, PADDING);
      ScanOne(lens, n, count, prev, most, least, PADDING);
      if GoesOn(lens, n, count, most, PADDING) {
        ScanWellFormed(lens, n + 1, count + 1, prev, most, least);
      } else {
        ScanWellFormed(lens, n + 1, 0, cur, Longest(cur, next), Shortest(cur, next));
        FlushWellFormed(cur, count + 1, prev, most, least);
      }
    } else {
      ScanAtEnd(lens);
    }
  }

  // ---------- byteGen ----------

  // Every token sent has a code of 1 to 7 bits.
  ghost predicate Decodable(toks: seq<Token>, blens: seq<nat>, codes: seq<Codeword>) {
    && |blens| == |codes| == 19 && Feasible(blens, MAX_LEN) && AtMost(blens, 7) && CodeTable(blens, codes, 19)
    && AllWellFormed(toks) && Codable(toks) && forall k :: 0 <= k < |toks| ==> blens[Symbol(toks[k])] > 0
  }

  // The registers of the decoder: how many more copies of len go out, and, when isExtra, how many
  // bits of repeat count come first.
  datatype Registers = Registers(copy: nat, len: nat, isExtra: bool, extra: nat)

  // The lengths out and the copies to come are the meaning of the tokens taken.
  ghost predicate Producing(out: seq<nat>, g: Registers, toks: seq<Token>, k: nat, x: nat) {
    && k <= |toks| && (g.isExtra ==> g.copy > 0) && (!g.isExtra ==> x == 0)
    && out + Copies(g.len, g.copy + x) == Expand(toks[..k], 0)
    && g.len == Last(toks[..k], 0)
  }

  // The bits ahead are the repeat count x, when there is one, and the tokens not taken.
  ghost predicate Streaming(ahead: seq<Bit>, g: Registers, toks: seq<Token>, k: nat, x: nat, codes: seq<Codeword>, rest: seq<Bit>) {
    && k <= |toks| && |codes| == 19 && Codable(toks[k..]) && (g.isExtra ==> x < Pow2(g.extra) && g.extra <= 7)
    && ahead == (if g.isExtra then LowBits(x, g.extra) else []) + TreeBits(toks[k..], codes) + rest
  }

  ghost predicate Reading(out: seq<nat>, g: Registers, ahead: seq<Bit>, toks: seq<Token>, k: nat, x: nat, codes: seq<Codeword>, rest: seq<Bit>) {
    Producing(out, g, toks, k, x) && Streaming(ahead, g, toks, k, x, codes, rest)
  }

  lemma ReadingStarts(toks: seq<Token>, codes: seq<Codeword>, rest: seq<Bit>)
    requires |codes| == 19 && Codable(toks)
    ensures Reading([], Registers(0, 0, false, 0), TreeBits(toks, codes) + rest, toks, 0, 0, codes, rest)
  {
    assert toks[0..] == toks && toks[..0] == [];
    assert [] + TreeBits(toks, codes) == TreeBits(toks, codes);
  }

  // The repeat count is read.
  lemma ReadsExtra(out: seq<nat>, g: Registers, ahead: seq<Bit>, toks: seq<Token>, k: nat, x: nat, codes: seq<Codeword>, rest: seq<Bit>)
    requires Reading(out, g, ahead, toks, k, x, codes, rest) && g.isExtra
    ensures g.extra <= |ahead| && g.extra <= 7 && x < Pow2(g.extra) && ahead[..g.extra] == LowBits(x, g.extra)
    ensures Reading(out, g.(isExtra := false, copy := g.copy + x), ahead[g.extra..], toks, k, 0, codes, rest)
  {
    hide Producing, Streaming;
    StreamReads(ahead, g, toks, k, x, codes, rest);
    ProduceReads(out, g, toks, k, x);
  }

  lemma ProduceReads(out: seq<nat>, g: Registers, toks: seq<Token>, k: nat, x: nat)
    requires Producing(out, g, toks, k, x) && g.isExtra
    ensures Producing(out, g.(isExtra := false, copy := g.copy + x), toks, k, 0)
  {
    hide Expand, Last, Copies;
    assert g.copy + x + 0 == g.copy + x;
  }

  lemma StreamReads(ahead: seq<Bit>, g: Registers, toks: seq<Token>, k: nat, x: nat, codes: seq<Codeword>, rest: seq<Bit>)
    requires Streaming(ahead, g, toks, k, x, codes, rest) && g.isExtra
    ensures g.extra <= |ahead| && g.extra <= 7 && x < Pow2(g.extra) && ahead[..g.extra] == LowBits(x, g.extra)
    ensures Streaming(ahead[g.extra..], g.(isExtra := false, copy := g.copy + x), toks, k, 0, codes, rest)
  {
    hide TreeBits, Pow2, Codable, LowBits;
    ThreeParts(LowBits(x, g.extra), TreeBits(toks[k..], codes), rest);
  }

  lemma ThreeParts(a: seq<Bit>, b: seq<Bit>, c: seq<Bit>)
    ensures (a + b + c)[..|a|] == a && (a + b + c)[|a|..] == [] + b + c
  {
  }

  // One copy goes out.
  lemma WritesOne(out: seq<nat>, g: Registers, ahead: seq<Bit>, toks: seq<Token>, k: nat, x: nat, codes: seq<Codeword>, rest: seq<Bit>)
    requires Reading(out, g, ahead, toks, k, x, codes, rest) && g.copy > 0 && (g.isExtra ==> g.copy > 1)
    ensures Reading(out + [g.len], g.(copy := g.copy - 1), ahead, toks, k, x, codes, rest)
  {
    hide Producing, LowBits, TreeBits, Codable, Pow2;
    ProducesOne(out, g, toks, k, x);
  }

  lemma ProducesOne(out: seq<nat>, g: Registers, toks: seq<Token>, k: nat, x: nat)
    requires Producing(out, g, toks, k, x) && g.copy > 0 && (g.isExtra ==> g.copy > 1)
    ensures Producing(out + [g.len], g.(copy := g.copy - 1), toks, k, x)
  {
    var n := g.copy + x;
    CopiesJoin(g.len, 1, n - 1);
    assert Copies(g.len, 1) == Copies(g.len, 0) + [g.len] == [g.len];
    hide Expand, Last, Copies;
    assert out + ([g.len] + Copies(g.len, n - 1)) == out + [g.len] + Copies(g.len, n - 1);
  }

  function Loaded(t: Token, len: nat): Registers {
    match t
    case Len(l) => Registers(1, l, false, 0)
    case Again(n) => Registers(3, len, true, 2)
    case Zeros(n) => Registers(3, 0, true, 3)
    case ManyZeros(n) => Registers(11, 0, true, 7)
  }

  lemma MeaningLoaded(t: Token, prev: nat)
    requires WellFormed(t)
    ensures Base(t) <= Amount(t) && Loaded(t, prev).copy == Base(t) && Loaded(t, prev).len == After(t, prev) && Loaded(t, prev).isExtra == !t.Len?
    ensures Meaning(t, prev) == Copies(After(t, prev), Amount(t)) && (!t.Len? ==> Loaded(t, prev).extra == ExtraBits(t))
    ensures t.Len? ==> Amount(t) == 1
  {
    assert Copies(0, 1) == Copies(0, 0) + [0];
    if t.Len? { assert Copies(t.l, 1) == Copies(t.l, 0) + [t.l] == [t.l]; }
  }

  lemma NextBits(toks: seq<Token>, k: nat, codes: seq<Codeword>)
    requires k < |toks| && |codes| == 19 && Codable(toks[k..]) && WellFormed(toks[k])
    ensures Codable(toks[k + 1..]) && Symbol(toks[k]) < 19 && Base(toks[k]) <= Amount(toks[k])
    ensures var c := codes[Symbol(toks[k])];
            TreeBits(toks[k..], codes)
            == LowBits(c.codeword, c.bitlength) + LowBits(Amount(toks[k]) - Base(toks[k]), ExtraBits(toks[k])) + TreeBits(toks[k + 1..], codes)
  {
    var rest := toks[k..];
    assert rest[1..] == toks[k + 1..] && rest[0] == toks[k];
    CodableTail(rest);
    hide Codable, LowBits, FieldBits, FieldsOf, TreeBits, Amount, Base, ExtraBits, WellFormed;
    TreeBitsFirst(rest, codes);
    TokenBits(toks[k], codes);
  }

  lemma CodableTail(toks: seq<Token>)
    requires Codable(toks) && toks != []
    ensures Codable(toks[1..])
  {
    assert forall i :: 0 <= i < |toks[1..]| ==> toks[1..][i] == toks[i + 1];
  }

  lemma NextMeaning(toks: seq<Token>, k: nat)
    requires k < |toks|
    ensures Expand(toks[..k + 1], 0) == Expand(toks[..k], 0) + Meaning(toks[k], Last(toks[..k], 0))
    ensures Last(toks[..k + 1], 0) == After(toks[k], Last(toks[..k], 0))
  {
    hide *;
    assert toks[..k + 1] == toks[..k] + [toks[k]];
    ExpandConcat(toks[..k], [toks[k]], 0);
    ExpandOne(toks[k], Last(toks[..k], 0));
  }

  lemma SentSymbol(toks: seq<Token>, blens: seq<nat>, codes: seq<Codeword>, k: nat, rest: seq<Bit>)
    requires Decodable(toks, blens, codes) && k < |toks|
    ensures WellFormed(toks[k]) && Symbol(toks[k]) < 19 == |blens| == |codes| && 0 < blens[Symbol(toks[k])] <= 7
    ensures var c := codes[Symbol(toks[k])];
            c.bitlength == blens[Symbol(toks[k])] && StartsWith(LowBits(c.codeword, c.bitlength) + rest, blens, Symbol(toks[k]))
  {
    SentCodeStarts(blens, codes, Symbol(toks[k]), MAX_LEN, rest);
  }

  // A symbol is taken up.
  lemma TakesSymbol(out: seq<nat>, g: Registers, ahead: seq<Bit>, toks: seq<Token>, k: nat, blens: seq<nat>, codes: seq<Codeword>, rest: seq<Bit>)
    requires Reading(out, g, ahead, toks, k, 0, codes, rest) && g.copy == 0 && !g.isExtra && k < |toks|
    requires Decodable(toks, blens, codes)
    ensures Symbol(toks[k]) < |blens| && 0 < blens[Symbol(toks[k])] <= |ahead|
    ensures StartsWith(ahead + Same(0, 16), blens, Symbol(toks[k]))
    ensures WellFormed(toks[k]) && Base(toks[k]) <= Amount(toks[k])
    ensures Reading(out, Loaded(toks[k], g.len), ahead[blens[Symbol(toks[k])]..], toks, k + 1, Amount(toks[k]) - Base(toks[k]), codes, rest)
  {
    hide *;
    ReadingOpens(out, g, ahead, toks, k, 0, codes, rest);
    StreamTakes(ahead, g, toks, k, blens, codes, rest);
    ProduceTakes(out, g, toks, k);
    StreamLoads(ahead[blens[Symbol(toks[k])]..], g.len, toks, k, codes, rest);
    ReadingCloses(out, Loaded(toks[k], g.len), ahead[blens[Symbol(toks[k])]..], toks, k + 1, Amount(toks[k]) - Base(toks[k]), codes, rest);
  }

  lemma ReadingOpens(out: seq<nat>, g: Registers, ahead: seq<Bit>, toks: seq<Token>, k: nat, x: nat, codes: seq<Codeword>, rest: seq<Bit>)
    requires Reading(out, g, ahead, toks, k, x, codes, rest)
    ensures Producing(out, g, toks, k, x) && Streaming(ahead, g, toks, k, x, codes, rest)
  {
    hide Producing, Streaming;
  }

  lemma ReadingCloses(out: seq<nat>, g: Registers, ahead: seq<Bit>, toks: seq<Token>, k: nat, x: nat, codes: seq<Codeword>, rest: seq<Bit>)
    requires Producing(out, g, toks, k, x) && Streaming(ahead, g, toks, k, x, codes, rest)
    ensures Reading(out, g, ahead, toks, k, x, codes, rest)
  {
    hide Producing, Streaming;
  }

  lemma ProduceTakes(out: seq<nat>, g: Registers, toks: seq<Token>, k: nat)
    requires Producing(out, g, toks, k, 0) && g.copy == 0 && !g.isExtra && k < |toks| && WellFormed(toks[k])
    ensures Base(toks[k]) <= Amount(toks[k]) && Producing(out, Loaded(toks[k], g.len), toks, k + 1, Amount(toks[k]) - Base(toks[k]))
  {
    NextMeaning(toks, k);
    MeaningLoaded(toks[k], g.len);
    assert out + [] == out;
    hide Expand, Last, Meaning, Loaded, WellFormed, After;
    BasePositive(toks[k]);
  }

  lemma BasePositive(t: Token)
    ensures Base(t) > 0
  {
  }

  lemma StreamOpens(ahead: seq<Bit>, g: Registers, toks: seq<Token>, k: nat, codes: seq<Codeword>, rest: seq<Bit>)
    requires Streaming(ahead, g, toks, k, 0, codes, rest) && !g.isExtra
    ensures |codes| == 19 && k <= |toks| && Codable(toks[k..]) && ahead == TreeBits(toks[k..], codes) + rest
  {
    hide TreeBits, Codable;
    assert [] + TreeBits(toks[k..], codes) == TreeBits(toks[k..], codes);
  }

  lemma StreamTakes(ahead: seq<Bit>, g: Registers, toks: seq<Token>, k: nat, blens: seq<nat>, codes: seq<Codeword>, rest: seq<Bit>)
    requires Streaming(ahead, g, toks, k, 0, codes, rest) && !g.isExtra && k < |toks| && Decodable(toks, blens, codes)
    ensures WellFormed(toks[k]) && Symbol(toks[k]) < |blens| == |codes| == 19 && 0 < blens[Symbol(toks[k])] <= |ahead|
    ensures Codable(toks[k + 1..]) && Base(toks[k]) <= Amount(toks[k])
    ensures ahead[blens[Symbol(toks[k])]..]
         == LowBits(Amount(toks[k]) - Base(toks[k]), ExtraBits(toks[k])) + TreeBits(toks[k + 1..], codes) + rest
    ensures StartsWith(ahead + Same(0, 16), blens, Symbol(toks[k]))
  {
    hide *;
    SentSymbol(toks, blens, codes, k, []);
    StreamOpens(ahead, g, toks, k, codes, rest);
    NextBits(toks, k, codes);
    var c := codes[Symbol(toks[k])];
    var code := LowBits(c.codeword, c.bitlength);
    var more, tail := LowBits(Amount(toks[k]) - Base(toks[k]), ExtraBits(toks[k])), TreeBits(toks[k + 1..], codes);
    Fourfold(code, more, tail, rest, Same(0, 16));
    SentSymbol(toks, blens, codes, k, more + tail + rest + Same(0, 16));
  }

  lemma Fourfold(a: seq<Bit>, b: seq<Bit>, c: seq<Bit>, d: seq<Bit>, e: seq<Bit>)
    ensures a + b + c + d + e == a + (b + c + d + e)
    ensures |a| <= |a + b + c + d| && (a + b + c + d)[|a|..] == b + c + d
  {
  }

  lemma StreamLoads(ahead: seq<Bit>, len: nat, toks: seq<Token>, k: nat, codes: seq<Codeword>, rest: seq<Bit>)
    requires k < |toks| && |codes| == 19 && WellFormed(toks[k]) && Codable(toks[k + 1..]) && Base(toks[k]) <= Amount(toks[k])
    requires ahead == LowBits(Amount(toks[k]) - Base(toks[k]), ExtraBits(toks[k])) + TreeBits(toks[k + 1..], codes) + rest
    ensures Streaming(ahead, Loaded(toks[k], len), toks, k + 1, Amount(toks[k]) - Base(toks[k]), codes, rest)
  {
    TokenBits(toks[k], codes);
    MeaningLoaded(toks[k], len);
    NoBits(toks[k]);
    hide TreeBits, Codable, FieldBits, FieldsOf, LowBits, Pow2, Meaning;
  }

  lemma NoBits(t: Token)
    ensures t.Len? ==> LowBits(Amount(t) - Base(t), ExtraBits(t)) == []
  {
  }

  lemma ReadingFacts(out: seq<nat>, g: Registers, ahead: seq<Bit>, toks: seq<Token>, k: nat, codes: seq<Codeword>, rest: seq<Bit>)
    requires Reading(out, g, ahead, toks, k, 0, codes, rest) && g.copy == 0 && !g.isExtra
    ensures out == Expand(toks[..k], 0) && g.len == Last(toks[..k], 0) && |codes| == 19 && Codable(toks[k..])
    ensures ahead == TreeBits(toks[k..], codes) + rest
  {
    hide TreeBits, Expand, Last, Codable;
    StreamOpens(ahead, g, toks, k, codes, rest);
    assert out + [] == out;
  }

  // What the state machine does with a symbol.
  method LoadSymbol(val: nat, len: nat, ghost t: Token) returns (g: Registers)
    requires WellFormed(t) && val == Symbol(t)
    ensures g == Loaded(t, len)
  {
    if val < 16 {
      g := Registers(1, val, false, 0);
    } else if val == 16 {
      g := Registers(3, len, true, 2);
    } else if val == 17 {
      g := Registers(3, 0, true, 3);
    } else {
      g := Registers(11, 0, true, 7);
    }
  }

  lemma NotAtEnd(out: seq<nat>, g: Registers, ahead: seq<Bit>, toks: seq<Token>, k: nat, codes: seq<Codeword>, rest: seq<Bit>, x: nat)
    requires Reading(out, g, ahead, toks, k, x, codes, rest)
    ensures k <= |toks| && |codes| == 19 && Codable(toks[k..]) && (g.isExtra ==> g.copy > 0)
    ensures g.copy == 0 ==> !g.isExtra && x == 0
    ensures g.copy == 0 ==> out == Expand(toks[..k], 0) && ahead == TreeBits(toks[k..], codes) + rest
    ensures k == |toks| ==> toks[..k] == toks && TreeBits(toks[k..], codes) == []
  {
    if g.copy == 0 { ReadingFacts(out, g, ahead, toks, k, codes, rest); }
    if k == |toks| { assert toks[k..] == []; }
  }

  // One cycle of the state machine.
  method Cycle(r: BitReader, out0: seq<nat>, g0: Registers, codeOffsets: array<nat>, tables: array2<nat>,
               ghost toks: seq<Token>, ghost k0: nat, ghost x0: nat, ghost blens: seq<nat>, ghost codes: seq<Codeword>, ghost rest: seq<Bit>)
    returns (out: seq<nat>, g: Registers, ghost k: nat, ghost x: nat)
    requires Decodable(toks, blens, codes) && Offsets(blens, codeOffsets[..], MAX_LEN) && Filed(blens, |blens|, tables)
    requires r.Valid() && r.Full() && Reading(out0, g0, r.Ahead(), toks, k0, x0, codes, rest) && k0 <= |toks|
    requires k0 == |toks| ==> g0.copy > 0
    requires g0.isExtra ==> g0.copy > 0
    modifies r
    ensures r.Valid() && r.Full() && Reading(out, g, r.Ahead(), toks, k, x, codes, rest) && k <= |toks|
    ensures |toks| - k < |toks| - k0 || (k == k0 && ((g0.isExtra && !g.isExtra) || (g0.isExtra == g.isExtra && g.copy < g0.copy)))
  {
    hide *;
    out, g, k, x := out0, g0, k0, x0;
    if g.isExtra {
      ReadsExtra(out, g, r.Ahead(), toks, k, x, codes, rest);
      Enough(r, g.extra);
      var extraCopy := r.Take(g.extra);
      SameBits(extraCopy, x, g.extra);
      g := g.(isExtra := false, copy := g.copy + extraCopy);
      x := 0;
    } else if g.copy == 0 {
      NotAtEnd(out, g, r.Ahead(), toks, k, codes, rest, x);
      TakesSymbol(out, g, r.Ahead(), toks, k, blens, codes, rest);
      ReadyToCompare(toks, blens, codes, r.bitbuffer);
      ShownStarts(r, blens, Symbol(toks[k]));
      var currentBits, currentVal := Compare(LowBits(r.bitbuffer, 7), 7, codeOffsets, tables, blens);
      NineteenSymbols(blens, Symbol(toks[k]));
      assert currentBits == blens[Symbol(toks[k])] && currentVal == Symbol(toks[k]);
      Enough(r, currentBits);
      r.Discard(currentBits);
      g := LoadSymbol(currentVal, g.len, toks[k]);
      x := Amount(toks[k]) - Base(toks[k]);
      LoadedCopies(toks[k], g0.len);
      k := k + 1;
    }
    WritesOne(out, g, r.Ahead(), toks, k, x, codes, rest);
    out := out + [g.len];
    g := g.(copy := g.copy - 1);
    r.Load();
  }

  // The code that comes next is what the register shows.
  lemma ShownStarts(r: BitReader, blens: seq<nat>, v: nat)
    requires r.Valid() && r.Full() && v < |blens| && blens[v] <= 7 && StartsWith(r.Ahead() + Same(0, 16), blens, v)
    ensures StartsWith(LowBits(r.bitbuffer, 7), blens, v)
  {
    hide *;
    Shown(r, 7);
    PrefixStarts(blens, v, r.Ahead() + Same(0, 16), LowBits(r.bitbuffer, 7));
  }

  lemma LoadedCopies(t: Token, len: nat)
    requires WellFormed(t)
    ensures Loaded(t, len).copy > 0 && (Loaded(t, len).isExtra ==> Loaded(t, len).copy > 1)
  {
  }

  // So few symbols never overwrite one another in the comparator's tables.
  lemma NineteenSymbols(blens: seq<nat>, x: nat)
    requires x < |blens| == 19 && blens[x] > 0
    ensures ReadAs(blens, x) == x
  {
    hide ReadAs;
    FewReadRight(blens, x);
  }

  lemma ReadyToCompare(toks: seq<Token>, blens: seq<nat>, codes: seq<Codeword>, v: nat)
    requires Decodable(toks, blens, codes)
    ensures |blens| == 19 && Feasible(blens, MAX_LEN) && AtMost(blens, 7) && 7 <= MAX_LEN && |LowBits(v, 7)| == 7
  {
  }

  // The decoder reads the lengths back, refilling its register as it goes, and stops right behind
  // their bits.
  method ByteGen(r: BitReader, count: nat, codeOffsets: array<nat>, tables: array2<nat>,
                 ghost toks: seq<Token>, ghost blens: seq<nat>, ghost codes: seq<Codeword>, ghost rest: seq<Bit>)
    returns (lens: seq<nat>)
    requires Decodable(toks, blens, codes) && Offsets(blens, codeOffsets[..], MAX_LEN) && Filed(blens, |blens|, tables)
    requires |codes| == 19 && Codable(toks) && r.Valid() && r.Ahead() == TreeBits(toks, codes) + rest && count == |Expand(toks, 0)|
    modifies r
    ensures lens == Expand(toks, 0) && r.Valid() && r.Full() && r.Ahead() == rest
  {
    hide *;
    r.Load();
    lens := [];
    var g := Registers(0, 0, false, 0);
    ghost var k: nat, x: nat := 0, 0;
    ReadingStarts(toks, codes, rest);
    while |lens| < count || g.copy != 0
      invariant r.Valid() && r.Full() && Reading(lens, g, r.Ahead(), toks, k, x, codes, rest) && k <= |toks|
      decreases |toks| - k, g.isExtra, g.copy
    {
      NotAtEnd(lens, g, r.Ahead(), toks, k, codes, rest, x);
      lens, g, k, x := Cycle(r, lens, g, codeOffsets, tables, toks, k, x, blens, codes, rest);
    }
    NotAtEnd(lens, g, r.Ahead(), toks, k, codes, rest, x);
    AllRead(lens, toks, k, blens, codes);
    assert [] + rest == rest;
  }

  lemma AllRead(lens: seq<nat>, toks: seq<Token>, k: nat, blens: seq<nat>, codes: seq<Codeword>)
    requires Decodable(toks, blens, codes) && k <= |toks| && lens == Expand(toks[..k], 0) && |lens| >= |Expand(toks, 0)|
    ensures k == |toks|
  {
    assert toks == toks[..k] + toks[k..];
    ExpandConcat(toks[..k], toks[k..], 0);
    ExpandGrows(toks[k..], Last(toks[..k], 0));
  }

  lemma {:induction false} ExpandGrows(toks: seq<Token>, prev: nat)
    requires AllWellFormed(toks)
    ensures |Expand(toks, prev)| >= |toks|
    decreases |toks|
  {
    if toks != [] { ExpandGrows(toks[1..], After(toks[0], prev)); }
  }

  // ---------- Both trees ----------

  // The lengths of both trees, one after the other.
  method SendLengths(lit: seq<nat>, dist: seq<nat>, codes: seq<Codeword>) returns (fields: seq<Codeword>)
    requires lit != [] && dist != [] && AtMost(lit, 15) && AtMost(dist, 15) && |codes| == 19
    requires lit[|lit| - 1] != PADDING && dist[|dist| - 1] != PADDING
    ensures Codable(Tokens(lit, PADDING) + Tokens(dist, PADDING))
    ensures fields == AllFields(Tokens(lit, PADDING) + Tokens(dist, PADDING), codes)
  {
    hide *;
    var a := SendTree(lit, codes);
    var b := SendTree(dist, codes);
    fields := a + b;
    AllFieldsConcat(Tokens(lit, PADDING), Tokens(dist, PADDING), codes);
  }

  // What is sent for both trees stands for the lengths of both.
  lemma BothMean(lit: seq<nat>, dist: seq<nat>)
    requires lit != [] && dist != [] && lit[|lit| - 1] != PADDING && dist[|dist| - 1] != PADDING
    ensures Expand(Tokens(lit, PADDING) + Tokens(dist, PADDING), 0) == lit + dist
  {
    hide *;
    TokensMean(lit, PADDING, 0);
    TokensMean(dist, PADDING, Last(Tokens(lit, PADDING), 0));
    ExpandConcat(Tokens(lit, PADDING), Tokens(dist, PADDING), 0);
  }
}
