/** `$(VAR)` expansion (pkg/expansion/expand.go) and its two users in pkg/container/helpers.go. */
module Expansion {
  newtype byte = x: int | 0 <= x < 256
  type Bytes = seq<byte>

  const OPERATOR: byte := 36
  const OPENER: byte := 40
  const CLOSER: byte := 41

  // ---- A grammar for the input ----

  datatype Token =
    | Literal(b: byte)      // any byte that starts nothing
    | Escape                // $$
    | Ref(name: Bytes)      // $(name)
    | Unclosed              // $( without a closer
    | Stray(b: byte)        // $ before any other byte

  /** The index of the first closer, or the length. */
  function CloserIndex(s: Bytes): (i: nat)
    ensures i <= |s|
    ensures forall j :: 0 <= j < i ==> s[j] != CLOSER
    ensures i < |s| ==> s[i] == CLOSER
  {
    if s == [] || s[0] == CLOSER then 0
    else
      var i := CloserIndex(s[1..]);
      assert forall j :: 0 < j < i + 1 ==> s[j] == s[1..][j - 1];
      i + 1
  }

  /** The first token of a non-empty input. */
  function Head(s: Bytes): Token
    requires s != []
  {
    if s[0] != OPERATOR || |s| == 1 then Literal(s[0])
    else if s[1] == OPERATOR then Escape
    else if s[1] == OPENER then
      var i := CloserIndex(s[2..]);
      if i < |s| - 2 then Ref(s[2..2 + i]) else Unclosed
    else Stray(s[1])
  }

  /** How a token is written. */
  function Written(t: Token): Bytes {
    match t
    case Literal(b) => [b]
    case Escape => [OPERATOR, OPERATOR]
    case Ref(name) => Wrap(name)
    case Unclosed => [OPERATOR, OPENER]
    case Stray(b) => [OPERATOR, b]
  }

  lemma {:induction false} HeadWritten(s: Bytes)
    requires s != []
    ensures Written(Head(s)) <= s && |Written(Head(s))| > 0
  {
    if Head(s).Ref? {
      var i := CloserIndex(s[2..]);
      assert s[2..][i] == CLOSER;
      assert Written(Head(s)) == s[..3 + i];
    }
  }

  /** syntaxWrap */
  function Wrap(name: Bytes): Bytes {
    [OPERATOR, OPENER] + name + [CLOSER]
  }

  /** Go's string(b) for a byte: the UTF-8 encoding of the code point b. */
  function RuneBytes(b: byte): Bytes {
    if b < 128 then [b] else [192 + b / 64, 128 + b % 64]
  }

  function Output(t: Token, mapping: Bytes -> Bytes): Bytes {
    match t
    case Literal(b) => [b]
    case Escape => [OPERATOR]
    case Ref(name) => mapping(name)
    case Unclosed => [OPERATOR, OPENER]
    case Stray(b) => [OPERATOR] + RuneBytes(b)
  }

  /** What is left after the first token. */
  function Tail(s: Bytes): (r: Bytes)
    requires s != []
    ensures |r| < |s|
  {
    HeadWritten(s);
    s[|Written(Head(s))|..]
  }

  /** The meaning of an input: the outputs of its tokens. A substituted value is copied, not
      read again. */
  function Expanded(s: Bytes, mapping: Bytes -> Bytes): Bytes
    decreases |s|
  {
    if s == [] then [] else Output(Head(s), mapping) + Expanded(Tail(s), mapping)
  }

  /** The names an input refers to, in order. */
  function Refs(s: Bytes): seq<Bytes>
    decreases |s|
  {
    if s == [] then []
    else (if Head(s).Ref? then [Head(s).name] else []) + Refs(Tail(s))
  }

  // ---- The implementation ----

  method TryReadVariableName(input: Bytes) returns (read: Bytes, isVar: bool, advance: nat)
    requires input != []
    ensures var t := Head([OPERATOR] + input);
            && advance + 1 == |Written(t)|
            && isVar == t.Ref?
            && (isVar ==> read == t.name)
            && (!isVar ==> read == Output(t, Wrap))
  {
    ghost var s := [OPERATOR] + input;
    assert s[2..] == input[1..];
    if input[0] == OPERATOR {
      return input[0..1], false, 1;
    } else if input[0] == OPENER {
      for i := 1 to |input|
        invariant forall j :: 1 <= j < i ==> input[j] != CLOSER
      {
        if input[i] == CLOSER {
          assert CloserIndex(s[2..]) == i - 1 by {
            assert s[2..][i - 1] == CLOSER;
            assert forall j :: 0 <= j < i - 1 ==> s[2..][j] != CLOSER;
          }
          assert s[2..2 + (i - 1)] == input[1..i];
          return input[1..i], true, i + 1;
        }
      }
      assert CloserIndex(s[2..]) == |s[2..]|;
      return [OPERATOR, OPENER], false, 1;
    } else {
      return [OPERATOR] + RuneBytes(input[0]), false, 1;
    }
  }

  lemma {:induction false} Unfold(s: Bytes, mapping: Bytes -> Bytes)
    requires s != []
    ensures 0 < |Written(Head(s))| <= |s| && Tail(s) == s[|Written(Head(s))|..] && s == Written(Head(s)) + Tail(s)
    ensures Expanded(s, mapping) == Output(Head(s), mapping) + Expanded(Tail(s), mapping)
    ensures Refs(s) == (if Head(s).Ref? then [Head(s).name] else []) + Refs(Tail(s))
  {
    HeadWritten(s);
  }

  /** What is done so far and the meaning of what is left add up to the meaning of the input. */
  ghost predicate Progress(input: Bytes, mapping: Bytes -> Bytes, done: Bytes, calls: seq<Bytes>, cursor: nat) {
    && cursor <= |input|
    && Expanded(input, mapping) == done + Expanded(input[cursor..], mapping)
    && Refs(input) == calls + Refs(input[cursor..])
  }

  lemma {:induction false} TokenStep(input: Bytes, mapping: Bytes -> Bytes, done: Bytes, calls: seq<Bytes>, cursor: nat)
    requires Progress(input, mapping, done, calls, cursor) && cursor < |input|
    ensures var t := Head(input[cursor..]);
            Progress(input, mapping, done + Output(t, mapping), calls + (if t.Ref? then [t.name] else []), cursor +
              |Written(t)|)
  {
    hide Expanded, Refs, Head, Written, Output, Tail;
    var rest := input[cursor..];
    var t := Head(rest);
    Unfold(rest, mapping);
    assert rest[|Written(t)|..] == input[cursor + |Written(t)|..];
    assert calls + ((if t.Ref? then [t.name] else []) + Refs(Tail(rest))) ==
      (calls + (if t.Ref? then [t.name] else [])) + Refs(Tail(rest));
    assert done + (Output(t, mapping) + Expanded(Tail(rest), mapping)) ==
      (done + Output(t, mapping)) + Expanded(Tail(rest), mapping);
  }

  lemma {:induction false} LiteralHead(s: Bytes, mapping: Bytes -> Bytes)
    requires s != [] && (s[0] != OPERATOR || |s| == 1)
    ensures !Head(s).Ref? && |Written(Head(s))| == 1 && Output(Head(s), mapping) == [s[0]]
  {
  }

  lemma {:induction false} OutputRef(t: Token, mapping: Bytes -> Bytes)
    requires t.Ref?
    ensures Output(t, mapping) == mapping(t.name)
  {
  }

  lemma {:induction false} OutputFixed(t: Token, mapping: Bytes -> Bytes)
    requires !t.Ref?
    ensures Output(t, mapping) == Output(t, Wrap)
  {
  }

  lemma {:induction false} ProgressDone(input: Bytes, mapping: Bytes -> Bytes, done: Bytes, calls: seq<Bytes>)
    requires Progress(input, mapping, done, calls, |input|)
    ensures Expanded(input, mapping) == done && Refs(input) == calls
  {
    assert input[|input|..] == [];
  }

  /** The cursor and checkpoint loop computes the meaning of its input. `calls` lists the names
      the mapping was applied to, in order. */
  method Expand(input: Bytes, mapping: Bytes -> Bytes) returns (output: Bytes, calls: seq<Bytes>)
    ensures output == Expanded(input, mapping)
    ensures calls == Refs(input)
  {
    hide Expanded, Refs, Head, Written, Output;
    var buf: Bytes := [];
    calls := [];
    var checkpoint: nat, cursor: nat := 0, 0;
    ghost var done: Bytes := [];
    assert input[0..] == input;
    while cursor < |input|
      invariant checkpoint <= cursor <= |input|
      invariant done == buf + input[checkpoint..cursor]
      invariant Progress(input, mapping, done, calls, cursor)
      decreases |input| - cursor
    {
      ghost var t := Head(input[cursor..]);
      ghost var nextDone, nextCalls, next := done + Output(t, mapping), calls +
        (if t.Ref? then [t.name] else []), cursor + |Written(t)|;
      TokenStep(input, mapping, done, calls, cursor);
      if input[cursor] == OPERATOR && cursor + 1 < |input| {
        assert input[cursor..] == [OPERATOR] + input[cursor + 1..];
        buf := buf + input[checkpoint..cursor];
        var read, isVar, advance := TryReadVariableName(input[cursor + 1..]);
        if isVar {
          OutputRef(t, mapping);
          calls := calls + [read];
          buf := buf + mapping(read);
        } else {
          OutputFixed(t, mapping);
          buf := buf + read;
        }
        cursor := cursor + advance;
        checkpoint := cursor + 1;
        assert buf == nextDone;
      } else {
        LiteralHead(input[cursor..], mapping);
        assert input[checkpoint..cursor + 1] == input[checkpoint..cursor] + [input[cursor]];
        assert nextDone == buf + input[checkpoint..cursor + 1];
      }
      cursor := cursor + 1;
      done := nextDone;
      assert cursor == next && calls == nextCalls;
    }
    ProgressDone(input, mapping, done, calls);
    output := buf + input[checkpoint..];
  }

  /** MappingFuncFor: the first context that defines the name, else the name wrapped again. */
  function MappingFor(contexts: seq<map<Bytes, Bytes>>): Bytes -> Bytes {
    name => Resolve(contexts, name)
  }

  function Resolve(contexts: seq<map<Bytes, Bytes>>, name: Bytes): Bytes {
    if contexts == [] then Wrap(name)
    else if name in contexts[0] then contexts[0][name]
    else Resolve(contexts[1..], name)
  }

  // ---- Properties ----

  function Tokens(s: Bytes): seq<Token>
    decreases |s|
  {
    if s == [] then [] else [Head(s)] + Tokens(Tail(s))
  }

  function Double(s: Bytes): Bytes {
    if s == [] then []
    else (if s[0] == OPERATOR then [OPERATOR, OPERATOR] else [s[0]]) + Double(s[1..])
  }

  /** Doubling every `$` protects any byte string from expansion. */
  lemma {:induction false} DoubleRoundTrip(s: Bytes, mapping: Bytes -> Bytes)
    ensures Expanded(Double(s), mapping) == s
  {
    if s != [] {
      DoubleRoundTrip(s[1..], mapping);
      var d := Double(s);
      assert Tail(d) == Double(s[1..]);
      assert s == [s[0]] + s[1..];
    }
  }

  /** A token that expansion with the wrap-back mapping alters. */
  predicate Altered(t: Token) {
    t.Escape? || (t.Stray? && t.b >= 128)
  }

  lemma {:induction false} UnalteredOutput(t: Token)
    requires !Altered(t)
    ensures Output(t, Wrap) == Written(t)
  {
  }

  /** With no variables defined, expansion is the identity exactly on the inputs without an
      escaped `$` and without a `$` in front of a non-ASCII byte. */
  lemma {:induction false} WrapBackExact(s: Bytes)
    ensures Expanded(s, Wrap) == s <==> forall t :: t in Tokens(s) ==> !Altered(t)
    decreases |s|
  {
    hide Expanded, Head, Written, Output, Tail;
    if s == [] {
      EmptyExpanded();
    } else {
      Unfold(s, Wrap);
      var h, rest := Head(s), Tail(s);
      assert forall t :: t in Tokens(s) <==> t == h || t in Tokens(rest);
      if Altered(h) {
        AlteredHead(s);
      } else {
        WrapBackExact(rest);
        UnalteredOutput(h);
        SamePrefix(Written(h), Expanded(rest, Wrap), rest);
      }
    }
  }

  lemma {:induction false} EmptyExpanded()
    ensures Expanded([], Wrap) == []
  {
  }

  lemma {:induction false} AlteredHead(s: Bytes)
    requires s != [] && Altered(Head(s))
    ensures Expanded(s, Wrap) != s
  {
    var h, rest := Head(s), s[2..];
    assert Tail(s) == rest && s == s[..2] + rest;
    if h.Escape? {
      assert s == [OPERATOR] + ([OPERATOR] + rest);
      SamePrefix([OPERATOR], Expanded(rest, Wrap), [OPERATOR] + rest);
      assert Operators(1) == [OPERATOR];
      NoExtraOperators(rest, 1);
    } else {
      StrayNotPreserved(h.b, rest);
    }
  }

  lemma {:induction false} SamePrefix(p: Bytes, a: Bytes, b: Bytes)
    ensures p + a == p + b <==> a == b
  {
    if p + a == p + b {
      assert a == (p + a)[|p|..];
      assert b == (p + b)[|p|..];
    }
  }

  function Operators(n: nat): Bytes {
    if n == 0 then [] else [OPERATOR] + Operators(n - 1)
  }

  /** Expansion never puts extra `$`s in front of what it was given. */
  lemma {:induction false} NoExtraOperators(s: Bytes, n: nat)
    requires n > 0
    ensures Expanded(s, Wrap) != Operators(n) + s
    decreases |s|
  {
    if s != [] {
      SecondOperator(n, s);
      if Head(s).Escape? {
        var rest := s[2..];
        assert Tail(s) == rest && s == [OPERATOR, OPERATOR] + rest;
        NoExtraOperators(rest, n + 1);
        OperatorsShift(n, rest);
        SamePrefix([OPERATOR], Expanded(rest, Wrap), Operators(n + 1) + rest);
      } else if s[0] == OPERATOR && |s| > 1 {
        var out := Output(Head(s), Wrap);
        assert |out| >= 2 && out[1] != OPERATOR;
        assert Expanded(s, Wrap)[1] == out[1];
      } else {
        LiteralFirst(s);
      }
    }
  }

  lemma {:induction false} LiteralFirst(s: Bytes)
    requires s != [] && (s[0] != OPERATOR || |s| == 1)
    ensures Expanded(s, Wrap) == [s[0]] + Expanded(s[1..], Wrap)
    ensures |s| == 1 ==> Expanded(s, Wrap) == s
  {
    assert Tail(s) == s[1..];
  }

  lemma {:induction false} OperatorsShift(n: nat, rest: Bytes)
    ensures Operators(n) + ([OPERATOR, OPERATOR] + rest) == [OPERATOR] + (Operators(n + 1) + rest)
  {
    AllOperators(n);
    AllOperators(n + 1);
  }

  lemma {:induction false} AllOperators(n: nat)
    ensures |Operators(n)| == n && forall i :: 0 <= i < n ==> Operators(n)[i] == OPERATOR
  {
    if n > 0 {
      AllOperators(n - 1);
    }
  }

  lemma {:induction false} SecondOperator(n: nat, s: Bytes)
    requires n > 0 && s != []
    ensures var t := Operators(n) + s;
            && |t| >= 2 && t[0] == OPERATOR
            && (s[0] == OPERATOR ==> t[1] == OPERATOR)
  {
    AllOperators(n);
  }

  /** A `$` before a non-ASCII byte comes out changed, whatever follows. */
  lemma {:induction false} StrayNotPreserved(b: byte, rest: Bytes)
    requires b >= 128
    ensures [OPERATOR] + RuneBytes(b) + Expanded(rest, Wrap) != [OPERATOR, b] + rest
  {
    hide Expanded;
    var e := Expanded(rest, Wrap);
    var l, r := [OPERATOR] + RuneBytes(b) + e, [OPERATOR, b] + rest;
    NotShifted(rest);
    if b == 195 {
      assert l == [OPERATOR, b] + ([131] + e);
      SamePrefix([OPERATOR, b], [131] + e, rest);
    } else {
      assert l[1] != b == r[1];
    }
  }

  lemma {:induction false} NotShifted(s: Bytes)
    ensures [131] + Expanded(s, Wrap) != s
    decreases |s|
  {
    if s != [] && s[0] == 131 {
      NotShifted(s[1..]);
      LiteralFirst(s);
      assert s == [131] + s[1..];
      SamePrefix([131], [131] + Expanded(s[1..], Wrap), s[1..]);
    }
  }

  /** ASCII text without `$$`. */
  ghost predicate PlainText(s: Bytes) {
    && (forall i :: 0 <= i < |s| ==> s[i] < 128)
    && (forall i :: 0 < i < |s| ==> s[i - 1] != OPERATOR || s[i] != OPERATOR)
  }

  /** On ASCII text without `$$`, an unknown reference is left exactly as it was written. */
  lemma {:induction false} UnknownLeftAlone(s: Bytes)
    requires PlainText(s)
    ensures Expanded(s, Wrap) == s
  {
    PlainTokens(s);
    WrapBackExact(s);
  }

  lemma {:induction false} PlainTokens(s: Bytes)
    requires PlainText(s)
    ensures forall t :: t in Tokens(s) ==> !Altered(t)
    decreases |s|
  {
    if s != [] {
      PlainTail(s);
      PlainTokens(Tail(s));
    }
  }

  lemma {:induction false} PlainTail(s: Bytes)
    requires PlainText(s) && s != []
    ensures PlainText(Tail(s)) && !Altered(Head(s))
  {
    var n, rest := |Written(Head(s))|, Tail(s);
    HeadWritten(s);
    assert forall i :: 0 <= i < |rest| ==> rest[i] == s[n + i];
    forall i | 0 < i < |rest| ensures rest[i - 1] != OPERATOR || rest[i] != OPERATOR {
      assert rest[i - 1] == s[n + i - 1] && rest[i] == s[n + i];
    }
    if |s| > 1 {
      assert s[1 - 1] != OPERATOR || s[1] != OPERATOR;
    }
  }

  // The five forms of input, each with what it expands to; together they determine every expansion.

  /** A reference ends at its first closer and is replaced by the value of its name. */
  lemma {:induction false} ReferenceReplaced(name: Bytes, rest: Bytes, mapping: Bytes -> Bytes)
    requires CLOSER !in name
    ensures Expanded([OPERATOR, OPENER] + name + [CLOSER] + rest, mapping) == mapping(name) + Expanded(rest, mapping)
  {
    var s := [OPERATOR, OPENER] + name + [CLOSER] + rest;
    assert s[2..] == name + [CLOSER] + rest;
    CloserAfter(name, rest);
    assert s[2..2 + |name|] == name;
    assert Head(s) == Ref(name);
    assert Tail(s) == rest;
  }

  lemma {:induction false} CloserAfter(name: Bytes, rest: Bytes)
    requires CLOSER !in name
    ensures CloserIndex(name + [CLOSER] + rest) == |name|
  {
    var s := name + [CLOSER] + rest;
    var i := CloserIndex(s);
    assert s[|name|] == CLOSER;
    assert forall k :: 0 <= k < |name| ==> s[k] == name[k];
  }

  lemma {:induction false} OtherForms(b: byte, rest: Bytes, mapping: Bytes -> Bytes)
    ensures Expanded([], mapping) == []
    ensures b != OPERATOR ==> Expanded([b] + rest, mapping) == [b] + Expanded(rest, mapping)
    ensures Expanded([OPERATOR], mapping) == [OPERATOR]
    ensures Expanded([OPERATOR, OPERATOR] + rest, mapping) == [OPERATOR] + Expanded(rest, mapping)
    ensures CLOSER !in rest ==>
      Expanded([OPERATOR, OPENER] + rest, mapping) == [OPERATOR, OPENER] + Expanded(rest, mapping)
    ensures b != OPERATOR && b != OPENER ==>
      Expanded([OPERATOR, b] + rest, mapping) == [OPERATOR] + RuneBytes(b) + Expanded(rest, mapping)
  {
    LiteralForm(b, rest, mapping);
    EscapeForm(rest, mapping);
    UnclosedForm(rest, mapping);
    StrayForm(b, rest, mapping);
  }

  lemma {:induction false} LiteralForm(b: byte, rest: Bytes, mapping: Bytes -> Bytes)
    ensures Expanded([], mapping) == [] && Expanded([OPERATOR], mapping) == [OPERATOR]
    ensures b != OPERATOR ==> Expanded([b] + rest, mapping) == [b] + Expanded(rest, mapping)
  {
    assert Tail([OPERATOR]) == [];
    if b != OPERATOR {
      assert Tail([b] + rest) == rest;
    }
  }

  lemma {:induction false} EscapeForm(rest: Bytes, mapping: Bytes -> Bytes)
    ensures Expanded([OPERATOR, OPERATOR] + rest, mapping) == [OPERATOR] + Expanded(rest, mapping)
  {
    assert Tail([OPERATOR, OPERATOR] + rest) == rest;
  }

  lemma {:induction false} UnclosedForm(rest: Bytes, mapping: Bytes -> Bytes)
    ensures CLOSER !in rest ==>
      Expanded([OPERATOR, OPENER] + rest, mapping) == [OPERATOR, OPENER] + Expanded(rest, mapping)
  {
    var s := [OPERATOR, OPENER] + rest;
    assert s[2..] == rest;
    if CLOSER !in rest {
      assert Tail(s) == rest;
    }
  }

  lemma {:induction false} StrayForm(b: byte, rest: Bytes, mapping: Bytes -> Bytes)
    ensures b != OPERATOR && b != OPENER ==>
      Expanded([OPERATOR, b] + rest, mapping) == [OPERATOR] + RuneBytes(b) + Expanded(rest, mapping)
  {
    if b != OPERATOR && b != OPENER {
      assert Tail([OPERATOR, b] + rest) == rest;
    }
  }

  ghost predicate FirstWith(contexts: seq<map<Bytes, Bytes>>, name: Bytes, i: int) {
    0 <= i < |contexts| && name in contexts[i] && forall j :: 0 <= j < i ==> name !in contexts[j]
  }

  /** The first context that has the name decides; a name that none has is wrapped again. */
  lemma {:induction false} MappingExact(contexts: seq<map<Bytes, Bytes>>, name: Bytes)
    ensures (forall i :: 0 <= i < |contexts| ==> name !in contexts[i]) ==>
      MappingFor(contexts)(name) == [OPERATOR, OPENER] + name + [CLOSER]
    ensures forall i :: FirstWith(contexts, name, i) ==> MappingFor(contexts)(name) == contexts[i][name]
  {
    if contexts != [] && name !in contexts[0] {
      var rest := contexts[1..];
      MappingExact(rest, name);
      assert MappingFor(contexts)(name) == MappingFor(rest)(name);
      assert forall i :: 0 < i < |contexts| ==> contexts[i] == rest[i - 1];
      forall i | FirstWith(contexts, name, i) ensures MappingFor(contexts)(name) == contexts[i][name] {
        assert forall j :: 0 <= j < i - 1 ==> rest[j] == contexts[j + 1];
        assert FirstWith(rest, name, i - 1);
      }
    }
  }

  /** A command that refers to no defined variable is left exactly as it was written. */
  lemma {:induction false} UndefinedLeftAlone(s: Bytes, env: map<Bytes, Bytes>)
    requires PlainText(s) && forall name :: name in Refs(s) ==> name !in env
    ensures Expanded(s, MappingFor([env])) == s
  {
    forall name | name in Refs(s) ensures MappingFor([env])(name) == Wrap(name) {
      MappingExact([env], name);
    }
    OnlyRefsMatter(s, MappingFor([env]), Wrap);
    UnknownLeftAlone(s);
  }

  /** Only the values of the names referred to matter. */
  lemma {:induction false} OnlyRefsMatter(s: Bytes, f: Bytes -> Bytes, g: Bytes -> Bytes)
    requires forall name :: name in Refs(s) ==> f(name) == g(name)
    ensures Expanded(s, f) == Expanded(s, g)
    decreases |s|
  {
    if s != [] {
      Unfold(s, f);
      Unfold(s, g);
      assert forall name :: name in Refs(Tail(s)) ==> name in Refs(s);
      if Head(s).Ref? {
        assert Head(s).name in Refs(s);
      }
      OnlyRefsMatter(Tail(s), f, g);
    }
  }

  // ---- pkg/container/helpers.go ----

  datatype EnvVar = EnvVar(name: Bytes, value: Bytes)
  datatype SubPath = Expansion(path: Bytes) | MissingValues(keys: set<Bytes>)

  /** `i` is the last definition of `name`. */
  ghost predicate LastDefinition(envs: seq<EnvVar>, name: Bytes, i: nat) {
    i < |envs| && envs[i].name == name && forall j :: i < j < |envs| ==> envs[j].name != name
  }

  /** `env` gives every defined name its last value, and has no other names. */
  ghost predicate LastValues(envs: seq<EnvVar>, env: map<Bytes, Bytes>) {
    && (forall i :: 0 <= i < |envs| ==> envs[i].name in env)
    && (forall name :: name in env ==> exists i: nat :: LastDefinition(envs, name, i) && env[name] == envs[i].value)
  }

  /** The environment as a map. */
  function Env(envs: seq<EnvVar>): map<Bytes, Bytes> {
    if envs == [] then map[]
    else
      var k := |envs| - 1;
      Env(envs[..k])[envs[k].name := envs[k].value]
  }

  /** A variable defined twice has the value of its last definition. */
  lemma {:induction false} LastDefinitionWins(envs: seq<EnvVar>)
    ensures LastValues(envs, Env(envs))
    decreases |envs|
  {
    if envs != [] {
      var k := |envs| - 1;
      LastDefinitionWins(envs[..k]);
      LastValuesStep(envs[..k], envs[k], Env(envs[..k]));
      assert envs == envs[..k] + [envs[k]];
    }
  }

  method EnvVarsToMap(envs: seq<EnvVar>) returns (env: map<Bytes, Bytes>)
    ensures env == Env(envs)
  {
    env := map[];
    for k := 0 to |envs|
      invariant env == Env(envs[..k])
    {
      env := env[envs[k].name := envs[k].value];
      assert envs[..k + 1][..k] == envs[..k];
    }
    assert envs[..|envs|] == envs;
  }

  lemma {:induction false} LastValuesStep(envs: seq<EnvVar>, e: EnvVar, env: map<Bytes, Bytes>)
    requires LastValues(envs, env)
    ensures LastValues(envs + [e], env[e.name := e.value])
  {
    var longer, next := envs + [e], env[e.name := e.value];
    forall name | name in next
      ensures exists i: nat :: LastDefinition(longer, name, i) && next[name] == longer[i].value
    {
      if name == e.name {
        assert LastDefinition(longer, name, |envs|);
      } else {
        var i: nat :| LastDefinition(envs, name, i) && env[name] == envs[i].value;
        assert LastDefinition(longer, name, i);
      }
    }
  }

  /** What the code looks up: a name that is not there reads as the empty string. */
  function ValueIn(env: map<Bytes, Bytes>): Bytes -> Bytes {
    name => if name in env then env[name] else []
  }

  method ExpandContainerCommandOnlyStatic(commands: seq<Bytes>, envs: seq<EnvVar>) returns (expanded: seq<Bytes>)
    ensures |expanded| == |commands|
    ensures forall i :: 0 <= i < |commands| ==> expanded[i] == Expanded(commands[i], MappingFor([Env(envs)]))
  {
    hide Expanded;
    var known := EnvVarsToMap(envs);
    expanded := [];
    for i := 0 to |commands|
      invariant |expanded| == i
      invariant forall k :: 0 <= k < i ==> expanded[k] == Expanded(commands[k], MappingFor([Env(envs)]))
    {
      var e, _ := Expand(commands[i], MappingFor([known]));
      expanded := expanded + [e];
    }
  }

  /** The closure of the source records a key each time the mapping is applied; here the
      applications are replayed from `calls`. */
  method ExpandContainerVolumeMounts(subPathExpr: Bytes, envs: seq<EnvVar>) returns (r: SubPath)
    ensures r.MissingValues? <==> exists name :: name in Refs(subPathExpr) && ValueIn(Env(envs))(name) == []
    ensures r.MissingValues? ==>
      forall name :: name in r.keys <==> name in Refs(subPathExpr) && ValueIn(Env(envs))(name) == []
    ensures r.Expansion? ==>
      r.path == Expanded(subPathExpr, ValueIn(Env(envs))) == Expanded(subPathExpr, MappingFor([Env(envs)]))
  {
    hide Expanded, Refs;
    var known := EnvVarsToMap(envs);
    var expanded, calls := Expand(subPathExpr, ValueIn(known));
    var missing: set<Bytes> := {};
    for i := 0 to |calls|
      invariant forall name :: name in missing <==> name in calls[..i] && ValueIn(known)(name) == []
    {
      var key := calls[i];
      if key !in known || |known[key]| == 0 {
        missing := missing + {key};
      }
      assert calls[..i + 1] == calls[..i] + [key];
    }
    assert calls[..|calls|] == calls;
    if |missing| > 0 {
      var key :| key in missing;
      return MissingValues(missing);
    }
    forall name | name in calls ensures ValueIn(known)(name) == MappingFor([known])(name) {
      assert name !in missing;
    }
    OnlyRefsMatter(subPathExpr, ValueIn(known), MappingFor([known]));
    return Expansion(expanded);
  }
}
