/** The signature parser: functions over a cursor they advance, and the method signature taken apart with it. */
module SignatureParser {
  import opened Bytes
  import opened SignatureTrees
  import opened SignatureGrammar

  /**
   A cursor into memory. The signature ends at `end`; the byte there is readable but arbitrary, and the parser
   looks at it before it notices the end.
   */
  class Cursor {
    const memory: seq<byte>
    const end: nat
    var cur: nat

    constructor (memory: seq<byte>, end: nat)
      requires end < |memory|
      ensures Valid() && cur == 0 && this.memory == memory && this.end == end
    {
      this.memory, this.end, cur := memory, end, 0;
    }

    ghost predicate Valid()
      reads this
    {
      cur <= end < |memory|
    }

    /** What is left of the signature. */
    ghost function Rest(): (r: seq<byte>)
      requires Valid()
      reads this
      ensures |r| == end - cur
    {
      memory[cur..end]
    }

    method ParseByte() returns (ok: bool, b: byte)
      requires Valid()
      modifies this
      ensures Valid() && ok == (old(Rest()) != [])
      ensures ok ==> cur == old(cur) + 1 && b == old(Rest())[0] && Rest() == old(Rest())[1..]
      ensures !ok ==> cur == old(cur)
    {
      if cur < end {
        b := memory[cur];
        cur := cur + 1;
        return true, b;
      }
      return false, 0;
    }

    /** The number a compressed integer stands for, with as many bytes as its first byte says. */
    method ParseNumber() returns (ok: bool, value: nat)
      requires Valid()
      modifies this
      ensures Valid() && old(cur) <= cur
      ensures ok == ReadNum(old(Rest())).Got?
      ensures ok ==> value == ReadNum(old(Rest())).value.value && cur == old(cur) + ReadNum(old(Rest())).size
      ensures ok ==> Rest() == old(Rest())[ReadNum(old(Rest())).size..]
    {
      value := 0;
      var b1, b2, b3, b4;
      ok, b1 := ParseByte();
      if !ok {
        return;
      }
      if b1 == 0xFF {
        return false, value;
      }
      if b1 < 0x80 {
        return true, b1;
      }
      ok, b2 := ParseByte();
      if !ok {
        return;
      }
      if b1 < 0xC0 {
        return true, TwoByteValue(b1, b2);
      }
      if b1 >= 0xE0 {
        return false, value;
      }
      ok, b3 := ParseByte();
      if !ok {
        return;
      }
      ok, b4 := ParseByte();
      if !ok {
        return;
      }
      value := FourByteValue(b1, b2, b3, b4);
    }

    method ParseTypeDefOrRefEncoded() returns (ok: bool, indexType: nat, index: nat)
      requires Valid()
      modifies this
      ensures Valid() && old(cur) <= cur
      ensures ok == ReadNum(old(Rest())).Got?
      ensures ok ==> index * 4 + indexType == ReadNum(old(Rest())).value.value && indexType < 4
      ensures ok ==> cur == old(cur) + ReadNum(old(Rest())).size && Rest() == old(Rest())[ReadNum(old(Rest())).size..]
    {
      hide ReadNum;
      indexType, index := 0, 0;
      var encoded;
      ok, encoded := ParseNumber();
      if ok {
        indexType, index := encoded % 4, encoded / 4;
      }
    }

    /**
     A type: success moves past exactly the type the rest starts with, and there is failure exactly when it starts
     with none. Terminates because every success consumes bytes.
     */
    method ParseType() returns (ok: bool)
      requires Valid()
      modifies this
      ensures Valid() && old(cur) <= cur
      ensures ok == ReadType(old(Rest())).Got?
      ensures ok ==> cur == old(cur) + ReadType(old(Rest())).size > old(cur)
      ensures ok ==> Rest() == old(Rest())[ReadType(old(Rest())).size..]
      decreases end - cur, 0
    {
      hide ReadGeneric, ReadNum;
      ghost var rest := Rest();
      var b;
      ok, b := ParseByte();
      if !ok || IsRefused(b) {
        return false;
      }
      if b == ELEMENT_CLASS || b == ELEMENT_VALUETYPE {
        var indexType, index;
        ok, indexType, index := ParseTypeDefOrRefEncoded();
      } else if b == ELEMENT_SZARRAY {
        if IsModifier(memory[cur]) {
          return false;
        }
        ok := ParseType();
      } else if b == ELEMENT_GENERICINST {
        ok := ParseGeneric(rest);
      } else if b == ELEMENT_VAR || b == ELEMENT_MVAR {
        var number;
        ok, number := ParseNumber();
      }
    }

    /** The rest of a generic instantiation, after its first byte. */
    method ParseGeneric(ghost data: seq<byte>) returns (ok: bool)
      requires Valid() && data != [] && data[1..] == Rest()
      modifies this
      ensures Valid() && old(cur) <= cur
      ensures ok == ReadGeneric(data).Got?
      ensures ok ==> cur == old(cur) + ReadGeneric(data).size - 1 && Rest() == data[ReadGeneric(data).size..]
      decreases end - cur, 2
    {
      hide ReadNum, ReadTypes;
      ghost var c0 := cur;
      var b, indexType, index, number;
      ok, b := ParseByte();
      if !ok || (b != ELEMENT_CLASS && b != ELEMENT_VALUETYPE) {
        return false;
      }
      ok, indexType, index := ParseTypeDefOrRefEncoded();
      if !ok {
        return;
      }
      ok, number := ParseNumber();
      if !ok {
        return;
      }
      ok := ParseTypes(number);
    }

    /** `number` types, one after another. */
    method ParseTypes(number: nat) returns (ok: bool)
      requires Valid()
      modifies this
      ensures Valid() && old(cur) <= cur
      ensures ok == ReadTypes(old(Rest()), number).Got?
      ensures ok ==> cur == old(cur) + ReadTypes(old(Rest()), number).size
      ensures ok ==> Rest() == old(Rest())[ReadTypes(old(Rest()), number).size..]
      decreases end - cur, 1
    {
      hide ReadType;
      ghost var rest, c0 := Rest(), cur;
      for i := 0 to number
        invariant Valid() && c0 <= cur && Rest() == rest[cur - c0..]
        invariant ReadTypes(rest, number).Got? == ReadTypes(Rest(), number - i).Got?
        invariant ReadTypes(rest, number).Got? ==>
                    ReadTypes(rest, number).size == cur - c0 + ReadTypes(Rest(), number - i).size
      {
        ok := ParseType();
        if !ok {
          return;
        }
      }
      ok := true;
    }

    method ParseParam() returns (ok: bool)
      requires Valid()
      modifies this
      ensures Valid() && old(cur) <= cur
      ensures ok == ReadParam(old(Rest())).Got?
      ensures ok ==> cur == old(cur) + ReadParam(old(Rest())).size
      ensures ok ==> Rest() == old(Rest())[ReadParam(old(Rest())).size..]
    {
      hide ReadType;
      if IsModifier(memory[cur]) {
        return false;
      }
      if cur >= end {
        return false;
      }
      if memory[cur] == ELEMENT_TYPEDBYREF {
        return false;
      }
      if memory[cur] == ELEMENT_BYREF {
        cur := cur + 1;
      }
      ok := ParseType();
    }

    /** A return type: the one difference, the case for VOID, accepts what ParseType accepts as well. */
    method ParseRetType() returns (ok: bool)
      requires Valid()
      modifies this
      ensures Valid() && old(cur) <= cur
      ensures ok == ReadParam(old(Rest())).Got?
      ensures ok ==> cur == old(cur) + ReadParam(old(Rest())).size
      ensures ok ==> Rest() == old(Rest())[ReadParam(old(Rest())).size..]
    {
      if IsModifier(memory[cur]) {
        return false;
      }
      if cur >= end {
        return false;
      }
      if memory[cur] == ELEMENT_TYPEDBYREF {
        return false;
      }
      if memory[cur] == ELEMENT_VOID {
        cur := cur + 1;
        return true;
      }
      hide ReadType;
      if memory[cur] == ELEMENT_BYREF {
        cur := cur + 1;
      }
      ok := ParseType();
    }
  }

  // ---- method signatures

  /** A stretch of the signature. */
  datatype Span = Span(offset: nat, length: nat)

  /** The spans of arguments that start at `at`: a sentinel stands in front of a span, not in it. */
  function Spans(args: seq<Arg>, seen: bool, at: nat): (r: seq<Span>)
    requires ArgsOk(args, seen)
    ensures |r| == |args|
  {
    if args == [] then []
    else
      [Span(at + |ArgBytes(args[0])| - |ParamBytes(args[0].param)|, |ParamBytes(args[0].param)|)]
      + Spans(args[1..], seen || args[0].sentinel, at + |ArgBytes(args[0])|)
  }

  class FunctionMethodSignature {
    const memory: seq<byte>
    const len: nat
    var numberOfTypeArguments: nat
    var numberOfArguments: nat
    var ret: Span
    var params: seq<Span>

    constructor (memory: seq<byte>, len: nat)
      requires len < |memory|
      ensures this.memory == memory && this.len == len && params == []
      ensures numberOfTypeArguments == 0 && numberOfArguments == 0
    {
      this.memory, this.len := memory, len;
      numberOfTypeArguments, numberOfArguments, ret, params := 0, 0, Span(0, 0), [];
    }

    /**
     Takes the signature apart: success exactly when the bytes start with a method signature, and then the counts
     and spans are that signature's.
     */
    method TryParse() returns (ok: bool)
      requires len < |memory| && params == [] && numberOfTypeArguments == 0
      modifies this
      ensures ok == ReadSig(memory[..len]).Got?
      ensures ok ==>
                var s := ReadSig(memory[..len]).value;
                && SigOk(s)
                && numberOfTypeArguments == s.typeArgs.value && numberOfArguments == s.paramCount.value
                && ret == Span(|CountBytes(s)|, |ParamBytes(s.ret)|)
                && params == Spans(s.args, false, |CountBytes(s)| + |ParamBytes(s.ret)|)
    {
      hide ReadNum, ReadParam, ReadType, SigOk, CountBytes, ParamBytes, ReadArgs, ReadCounts, ArgsOk, Spans, ParamOk,
        ReadSig;
      ReadSigSteps(memory[..len]);
      var c := new Cursor(memory, len);
      ghost var data := memory[..len];
      assert c.Rest() == data;
      var count;
      ok, count := ParseCounts(c);
      if !ok {
        return;
      }
      ghost var h := ReadCounts(data).size;
      var start := c.cur;
      ok := c.ParseRetType();
      if !ok {
        return;
      }
      ret := Span(start, c.cur - start);
      ok := ParseArguments(c, count);
      if ok {
        PartsOfSig(data);
      }
    }

    /** The calling convention and the counts. */
    method ParseCounts(c: Cursor) returns (ok: bool, count: nat)
      requires len < |memory| && numberOfTypeArguments == 0
      requires c.Valid() && c.cur == 0 && c.Rest() == memory[..len] && c.end == len
      modifies this`numberOfTypeArguments, this`numberOfArguments, c
      ensures c.Valid() && ok == ReadCounts(memory[..len]).Got?
      ensures ok ==>
                var r := ReadCounts(memory[..len]);
                && numberOfTypeArguments == r.value.typeArgs.value
                && numberOfArguments == count == r.value.paramCount.value
                && c.cur == r.size && c.Rest() == memory[..len][r.size..]
    {
      hide ReadNum;
      count := 0;
      var b;
      ok, b := c.ParseByte();
      if !ok {
        return;
      }
      if IsGeneric(b) {
        var typeArgs;
        ok, typeArgs := c.ParseNumber();
        if !ok {
          return;
        }
        numberOfTypeArguments := typeArgs;
      }
      ok, count := c.ParseNumber();
      if ok {
        numberOfArguments := count;
      }
    }

    /** One argument, with the sentinel in front of it if there is one. */
    method ParseArgument(c: Cursor, seen: bool) returns (ok: bool, nowSeen: bool, start: nat)
      requires c.Valid()
      modifies c
      ensures c.Valid() && old(c.cur) <= c.cur
      ensures ok == ReadArg(old(c.Rest()), seen).Got?
      ensures ok ==>
                var r := ReadArg(old(c.Rest()), seen);
                && nowSeen == (seen || r.value.sentinel)
                && start == old(c.cur) + (if r.value.sentinel then 1 else 0)
                && c.cur == old(c.cur) + r.size && c.Rest() == old(c.Rest())[r.size..]
    {
      hide ReadParam;
      nowSeen, start := seen, c.cur;
      if c.cur >= c.end {
        return false, nowSeen, start;
      }
      if c.memory[c.cur] == ELEMENT_SENTINEL {
        if seen {
          return false, nowSeen, start;
        }
        nowSeen := true;
        c.cur := c.cur + 1;
      }
      start := c.cur;
      ok := c.ParseParam();
    }

    method ParseArguments(c: Cursor, count: nat) returns (ok: bool)
      requires c.Valid() && params == []
      modifies this`params, c
      ensures c.Valid() && ok == ReadArgs(old(c.Rest()), count, false).Got?
      ensures ok ==>
                var args := ReadArgs(old(c.Rest()), count, false).value;
                ArgsOk(args, false) && params == Spans(args, false, old(c.cur))
    {
      hide ReadArg, ArgsOk, Spans, ReadArgs, ArgsSoFar;
      ghost var rest, c0 := c.Rest(), c.cur;
      ghost var whole := ReadArgs(rest, count, false);
      var seen := false;
      ghost var done: seq<Arg> := [];
      NoArgs(false, c0);
      for i := 0 to count
        invariant c.Valid() && c0 <= c.cur
        invariant |done| == i && seen == SeenIn(done) && ArgsSoFar(done, params, c0, c.cur)
        invariant Continues(whole, ReadArgs(c.Rest(), count - i, seen), done)
      {
        ghost var here, at := c.Rest(), c.cur;
        ghost var r := ReadArg(here, seen);
        ReadArgsStep(here, count - i, seen);
        var start;
        ok, seen, start := ParseArgument(c, seen);
        if !ok {
          return;
        }
        ReadArgSound(here, SeenIn(done));
        ArgParsed(done, params, r.value, c0, at, start);
        ContinuesStep(whole, done, r.value, ReadArgs(here, count - i, SeenIn(done)), ReadArgs(c.Rest(), count - i - 1,
                  seen));
        params := params + [Span(start, c.cur - start)];
        done := done + [r.value];
      }
      ReadArgsNone(c.Rest(), seen);
      SoFarIsAll(done, params, c0, c.cur);
      assert done + [] == done;
      ok := true;
    }
  }

  /** The arguments parsed so far, from c0 to cur, and their spans. */
  ghost predicate ArgsSoFar(done: seq<Arg>, params: seq<Span>, c0: nat, cur: nat) {
    ArgsOk(done, false) && params == Spans(done, false, c0) && c0 + |ArgsBytes(done, false)| == cur
  }

  lemma SoFarIsAll(done: seq<Arg>, params: seq<Span>, c0: nat, cur: nat)
    requires ArgsSoFar(done, params, c0, cur)
    ensures ArgsOk(done, false) && params == Spans(done, false, c0)
  {
  }

  /** Reading all arguments is what has been read, followed by what reading the rest gives. */
  ghost predicate Continues(whole: Parsed<seq<Arg>>, rest: Parsed<seq<Arg>>, done: seq<Arg>) {
    whole.Got? == rest.Got? && (whole.Got? ==> whole.value == done + rest.value)
  }

  lemma ContinuesStep(whole: Parsed<seq<Arg>>, done: seq<Arg>, a: Arg, from: Parsed<seq<Arg>>, rest: Parsed<seq<Arg>>)
    requires Continues(whole, from, done)
    requires from.Got? == rest.Got? && (from.Got? ==> from.value == [a] + rest.value)
    ensures Continues(whole, rest, done + [a])
  {
    if whole.Got? {
      assert done + ([a] + rest.value) == done + [a] + rest.value;
    }
  }

  lemma ReadArgsStep(data: seq<byte>, count: nat, seen: bool)
    requires count > 0
    ensures var r, all := ReadArg(data, seen), ReadArgs(data, count, seen);
            if r.Bad? then all.Bad?
            else
              var rest := ReadArgs(data[r.size..], count - 1, seen || r.value.sentinel);
              all.Got? == rest.Got? && (all.Got? ==> all.value == [r.value] + rest.value)
  {
    hide ReadArg;
  }

  lemma ReadArgsNone(data: seq<byte>, seen: bool)
    ensures ReadArgs(data, 0, seen) == Got([], 0)
  {
  }

  lemma ArgParsed(done: seq<Arg>, params: seq<Span>, a: Arg, c0: nat, at: nat, start: nat)
    requires ArgsSoFar(done, params, c0, at) && ArgOk(a) && !(SeenIn(done) && a.sentinel)
    requires start == at + if a.sentinel then 1 else 0
    ensures var end := at + |ArgBytes(a)|;
            start <= end && ArgsSoFar(done + [a], params + [Span(start, end - start)], c0, end)
    ensures SeenIn(done + [a]) == (SeenIn(done) || a.sentinel)
  {
    hide ArgOk, ParamBytes, Spans, ArgsBytes, ArgsOk;
    AppendArg(done, false, a);
    AppendSpan(done, false, a, c0);
    ArgSize(a);
  }

  lemma ArgSize(a: Arg)
    requires ArgOk(a)
    ensures |ArgBytes(a)| == |ParamBytes(a.param)| + if a.sentinel then 1 else 0
  {
    hide ParamBytes;
  }

  /** A sentinel is among the arguments. */
  function SeenIn(args: seq<Arg>): bool {
    args != [] && (args[0].sentinel || SeenIn(args[1..]))
  }

  lemma NoArgs(seen: bool, at: nat)
    ensures ArgsOk([], seen) && Spans([], seen, at) == [] && ArgsBytes([], seen) == []
    ensures ArgsSoFar([], [], at, at)
  {
  }

  lemma {:induction false} AppendArg(done: seq<Arg>, seen: bool, a: Arg)
    requires ArgsOk(done, seen) && ArgOk(a) && !((seen || SeenIn(done)) && a.sentinel)
    ensures SeenIn(done + [a]) == (SeenIn(done) || a.sentinel)
    ensures ArgsOk(done + [a], seen)
    ensures |ArgsBytes(done + [a], seen)| == |ArgsBytes(done, seen)| + |ArgBytes(a)|
    decreases |done|
  {
    hide ArgOk, ArgBytes;
    if done == [] {
      assert [] + [a] == [a] && [a][1..] == [];
    } else {
      var all := done + [a];
      assert all[1..] == done[1..] + [a] && all[0] == done[0];
      AppendArg(done[1..], seen || done[0].sentinel, a);
    }
  }

  lemma {:induction false} AppendSpan(done: seq<Arg>, seen: bool, a: Arg, at: nat)
    requires ArgsOk(done, seen) && ArgsOk(done + [a], seen) && ArgOk(a)
    ensures Spans(done + [a], seen, at)
            == Spans(done, seen, at)
               + [Span(at + |ArgsBytes(done, seen)| + |ArgBytes(a)| - |ParamBytes(a.param)|, |ParamBytes(a.param)|)]
    decreases |done|
  {
    hide ArgOk, ArgBytes, ParamBytes, ParamOk;
    var all := done + [a];
    if done == [] {
      assert all == [a] && all[1..] == [];
    } else {
      assert all[1..] == done[1..] + [a] && all[0] == done[0];
      AppendSpan(done[1..], seen || done[0].sentinel, a, at + |ArgBytes(done[0])|);
    }
  }

  /** Reading a signature is reading the counts, the return type and the arguments, one after another. */
  lemma ReadSigSteps(data: seq<byte>)
    ensures var r, c := ReadSig(data), ReadCounts(data);
            if c.Bad? then r.Bad?
            else
              var p := ReadParam(data[c.size..]);
              if p.Bad? then r.Bad?
              else
                var a := ReadArgs(data[c.size..][p.size..], c.value.paramCount.value, false);
                r.Got? == a.Got? && (r.Got? ==> r.value.args == a.value)
  {
    hide ReadCounts, ReadParam, ReadArgs;
    if ReadCounts(data).Got? && ReadParam(data[ReadCounts(data).size..]).Got? {
      var h, n := ReadCounts(data).size, ReadParam(data[ReadCounts(data).size..]).size;
      assert data[h + n..] == data[h..][n..];
    }
  }

  lemma PartsOfSig(data: seq<byte>)
    requires ReadSig(data).Got?
    ensures var s := ReadSig(data).value;
            && SigOk(s) && s.typeArgs == ReadCounts(data).value.typeArgs
            && s.paramCount == ReadCounts(data).value.paramCount
            && ReadCounts(data).size == |CountBytes(s)|
            && ReadParam(data[ReadCounts(data).size..]).size == |ParamBytes(s.ret)|
  {
    hide ReadCounts, ReadParam, ReadArgs, ParamBytes, CountBytes, ArgsBytes;
    ReadSigSound(data);
    var h := ReadCounts(data).size;
    ReadParamSound(data[h..]);
    var s := ReadSig(data).value;
    ReadCountsSound(data, s.ret, s.args);
  }

  // ---- tiling

  predicate EndsAt(s: Span, at: nat) {
    s.offset + s.length == at
  }

  /** Where the bytes in front of span i end. */
  function EndBefore(spans: seq<Span>, i: nat, at: nat): nat
    requires i <= |spans|
  {
    if i == 0 then at else spans[i - 1].offset + spans[i - 1].length
  }

  /** Between a span and what comes before it there is nothing, or one sentinel. */
  lemma {:induction false} SpansTile(args: seq<Arg>, seen: bool, at: nat, i: nat)
    requires ArgsOk(args, seen) && i < |args|
    ensures var spans := Spans(args, seen, at);
            && spans[i].offset == EndBefore(spans, i, at) + (if args[i].sentinel then 1 else 0)
            && spans[i].length >= 1
            && (i + 1 == |args| ==> EndsAt(spans[i], at + |ArgsBytes(args, seen)|))
    decreases |args|
  {
    hide ParamBytes, ArgOk;
    var seen', at' := seen || args[0].sentinel, at + |ArgBytes(args[0])|;
    if i > 0 {
      SpansTile(args[1..], seen', at', i - 1);
      var spans := Spans(args, seen, at);
      assert spans[1..] == Spans(args[1..], seen', at');
    } else {
      OneArg(args, seen, at);
    }
  }

  lemma OneArg(args: seq<Arg>, seen: bool, at: nat)
    requires ArgsOk(args, seen) && args != []
    ensures |ArgBytes(args[0])| == |ParamBytes(args[0].param)| + if args[0].sentinel then 1 else 0
    ensures |args| == 1 ==> |ArgsBytes(args, seen)| == |ArgBytes(args[0])|
  {
    hide ParamBytes;
    if |args| == 1 {
      assert args[1..] == [];
    }
  }

  lemma {:induction false} OneSentinel(args: seq<Arg>, seen: bool, i: nat, j: nat)
    requires ArgsOk(args, seen) && i < j < |args|
    ensures !(args[i].sentinel && args[j].sentinel) && !(seen && args[j].sentinel)
    decreases |args|
  {
    hide ArgOk;
    var seen' := seen || args[0].sentinel;
    if i > 0 {
      OneSentinel(args[1..], seen', i - 1, j - 1);
    } else if seen' {
      SeenMeansNone(args[1..], seen', j - 1);
    }
  }

  lemma {:induction false} SeenMeansNone(args: seq<Arg>, seen: bool, j: nat)
    requires ArgsOk(args, seen) && j < |args| && seen
    ensures !args[j].sentinel
    decreases |args|
  {
    hide ArgOk;
    if j > 0 {
      SeenMeansNone(args[1..], true, j - 1);
    }
  }

  /** What the header, the return span, the argument spans and the sentinel have to do with the bytes consumed. */
  ghost predicate Tiles(ret: Span, params: seq<Span>, sentinels: set<nat>, header: nat, total: nat) {
    ret.offset == header && ret.length >= 1 && FollowOn(params, sentinels, header + ret.length, total)
  }

  /** The spans in `params` follow one another from `at` to `total`, with at most one sentinel byte in between. */
  ghost predicate FollowOn(params: seq<Span>, sentinels: set<nat>, at: nat, total: nat) {
    && (forall i :: 0 <= i < |params| ==> FollowsOn(params, sentinels, at, i))
    && EndBefore(params, |params|, at) == total
    && (forall i, j :: i in sentinels && j in sentinels ==> i == j)
    && (forall i :: i in sentinels ==> i < |params|)
  }

  ghost predicate FollowsOn(params: seq<Span>, sentinels: set<nat>, at: nat, i: nat)
    requires i < |params|
  {
    params[i].length >= 1 && params[i].offset == EndBefore(params, i, at) + if i in sentinels then 1 else 0
  }

  function Sentinels(args: seq<Arg>): set<nat> {
    set i: nat | i < |args| && args[i].sentinel
  }

  lemma SpansFollowOn(args: seq<Arg>, at: nat)
    requires ArgsOk(args, false)
    ensures FollowOn(Spans(args, false, at), Sentinels(args), at, at + |ArgsBytes(args, false)|)
  {
    hide ArgsOk, ArgsBytes, Spans;
    var params := Spans(args, false, at);
    forall i: nat | i < |params| ensures FollowsOn(params, Sentinels(args), at, i) {
      SpansTile(args, false, at, i);
    }
    NoArgs(false, at);
    if args != [] {
      SpansTile(args, false, at, |params| - 1);
    }
    forall i: nat, j: nat | i < |args| && args[i].sentinel && j < |args| && args[j].sentinel ensures i == j {
      if i < j {
        OneSentinel(args, false, i, j);
      } else if j < i {
        OneSentinel(args, false, j, i);
      }
    }
  }

  /**
   Parsing tiles: on whatever bytes it succeeds, there are as many argument spans as declared, and header, return
   span, argument spans and at most one sentinel follow one another and make up the bytes of the signature.
   */
  lemma SuccessTiles(data: seq<byte>)
    requires ReadSig(data).Got?
    ensures SigOk(ReadSig(data).value)
    ensures var s := ReadSig(data).value;
            var ret := Span(|CountBytes(s)|, |ParamBytes(s.ret)|);
            var params := Spans(s.args, false, |CountBytes(s)| + |ParamBytes(s.ret)|);
            && |params| == s.paramCount.value
            && SigBytes(s) <= data && |SigBytes(s)| == ReadSig(data).size
            && Tiles(ret, params, Sentinels(s.args), |CountBytes(s)|, |SigBytes(s)|)
  {
    hide ReadSig, ReadType, ParamBytes, CountBytes, ArgsOk, ArgsBytes, Spans, FollowOn;
    ReadSigSound(data);
    var s := ReadSig(data).value;
    SpansFollowOn(s.args, |CountBytes(s)| + |ParamBytes(s.ret)|);
  }
}
