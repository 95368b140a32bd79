/**
 A selector as the server keeps it: a command bitmap, a table of allowed first
 arguments and the retained rule text, all updated in place by one rule string
 at a time.
 */
module AclSelector {

  import opened AclMeaning
  import opened AclParse
  import opened AclRules
  import opened AclText
  import opened Sds
  import SdsArgs
  import opened Wrappers

  // ---------------------------------------------------------------------------
  // The selector
  // ---------------------------------------------------------------------------

  ghost function SetOf(bits: seq<bool>): set<nat> { set i | 0 <= i < |bits| && bits[i] }

  /** All bits of a bitmap. */
  ghost predicate Full(bits: set<nat>) { forall i: nat :: i < COMMAND_BITS ==> i in bits }

  ghost function PairsOf(firstArgs: map<nat, seq<string>>): set<(nat, string)> {
    set id, k | id in firstArgs && 0 <= k < |firstArgs[id]| :: (id, Lower(firstArgs[id][k]))
  }

  lemma SetOfEqual(a: seq<bool>, b: seq<bool>)
    requires |a| == |b| && SetOf(a) == SetOf(b)
    ensures a == b
  {
    forall i | 0 <= i < |a| ensures a[i] == b[i] {
      assert a[i] <==> i in SetOf(a);
      assert b[i] <==> i in SetOf(b);
    }
  }

  lemma SetOfUpdate(bits: seq<bool>, id: nat, value: bool)
    requires id < |bits| == COMMAND_BITS
    ensures SetOf(bits[id := value]) == SetBits(SetOf(bits), {id}, value)
  {
  }

  lemma PairsOfReset(firstArgs: map<nat, seq<string>>, id: nat)
    ensures PairsOf(firstArgs - {id}) == Forget(PairsOf(firstArgs), {id})
  {
    var after := firstArgs - {id};
    forall x | x in Forget(PairsOf(firstArgs), {id}) ensures x in PairsOf(after) {
      var k :| 0 <= k < |firstArgs[x.0]| && x.1 == Lower(firstArgs[x.0][k]);
      assert after[x.0][k] == firstArgs[x.0][k];
    }
  }

  lemma FirstPair(m: map<nat, seq<string>>, id: nat)
    requires id in m
    ensures m[id] != [] ==> (id, Lower(m[id][0])) in PairsOf(m)
  {
  }

  class Selector {
    const bits: array<bool>
    var allCommands: bool
    var firstArgs: map<nat, seq<string>>
    var rules: string
    /** The rules of which the text is the joined form. */
    ghost var kept: seq<Rule>

    /** The flag that skips the bitmap test is set only when every bit is. */
    ghost predicate FlagOk()
      reads this, bits
    {
      allCommands ==> Full(SetOf(bits[..]))
    }

    /** The flag is as it was, unless a bit was cleared: then it has fallen. */
    ghost predicate FlagIs(was: bool)
      reads this, bits
    {
      allCommands == (was && Full(SetOf(bits[..])))
    }

    ghost predicate Valid(t: Table)
      reads this, bits
    {
      && bits.Length == COMMAND_BITS
      && FlagOk()
      && Consistent(t, Abstract())
      && rules == Joined(Tokens(kept))
    }

    ghost function Permissions(): Perms
      reads this, bits
    {
      Perms(SetOf(bits[..]), PairsOf(firstArgs))
    }

    ghost function Abstract(): State
      reads this, bits
    {
      State(Permissions(), kept)
    }

    constructor ()
      ensures fresh(bits) && bits.Length == COMMAND_BITS && FlagOk() && !allCommands
      ensures Abstract() == State(Nothing(), []) && rules == ""
    {
      bits := new bool[COMMAND_BITS](i => false);
      allCommands := false;
      firstArgs := map[];
      rules := "";
      kept := [];
    }

    method SetCommandBit(id: nat, value: bool)
      requires bits.Length == COMMAND_BITS && FlagOk()
      modifies bits, this`allCommands
      ensures FlagOk() && FlagIs(old(allCommands))
      ensures SetOf(bits[..]) == SetBits(old(SetOf(bits[..])), {id}, value)
    {
      if id >= COMMAND_BITS {
        return;
      }
      SetOfUpdate(bits[..], id, value);
      bits[id] := value;
      assert bits[..] == old(bits[..])[id := value];
      if !value {
        allCommands := false;
        assert id !in SetOf(bits[..]);
      }
    }

    method ResetFirstArgs(id: nat)
      modifies this`firstArgs
      ensures PairsOf(firstArgs) == Forget(old(PairsOf(firstArgs)), {id})
    {
      PairsOfReset(firstArgs, id);
      firstArgs := firstArgs - {id};
    }

    method AddFirstArg(id: nat, sub: string)
      modifies this`firstArgs
      ensures PairsOf(firstArgs) == old(PairsOf(firstArgs)) + {(id, Lower(sub))}
    {
      var args := if id in firstArgs then firstArgs[id] else [];
      for i := 0 to |args|
        invariant forall k :: 0 <= k < i ==> Lower(args[k]) != Lower(sub)
      {
        if Lower(args[i]) == Lower(sub) {
          assert (id, Lower(sub)) in PairsOf(firstArgs);
          return;
        }
      }
      ghost var before := firstArgs;
      firstArgs := firstArgs[id := args + [sub]];
      PairsOfAdd(before, id, sub);
    }

    /** Allows or denies one command together with its subcommands. */
    method ChangePerm(id: nat, subs: Option<map<string, Subcommand>>, allow: bool)
      requires bits.Length == COMMAND_BITS && FlagOk()
      modifies this`allCommands, this`firstArgs, bits
      ensures FlagOk() && FlagIs(old(allCommands))
      ensures SetOf(bits[..]) == SetBits(old(SetOf(bits[..])), CommandIds(Command(id, {}, subs)), allow)
      ensures PairsOf(firstArgs) == Forget(old(PairsOf(firstArgs)), {id})
    {
      SetCommandBit(id, allow);
      ResetFirstArgs(id);
      if subs.Some? {
        var todo := subs.value.Keys;
        ghost var done: set<nat> := {id};
        while todo != {}
          invariant todo <= subs.value.Keys
          invariant FlagOk() && FlagIs(old(allCommands))
          invariant PairsOf(firstArgs) == Forget(old(PairsOf(firstArgs)), {id})
          invariant SetOf(bits[..]) == SetBits(old(SetOf(bits[..])), done, allow)
          invariant done == {id} + set s | s in subs.value && s !in todo :: subs.value[s].id
          decreases todo
        {
          var s :| s in todo;
          SetCommandBit(subs.value[s].id, allow);
          SetBitsTwice(old(SetOf(bits[..])), done, {subs.value[s].id}, allow);
          done := done + {subs.value[s].id};
          todo := todo - {s};
        }
      }
    }
  
    /** Allows or denies every subcommand of cmd that is in the category. */
    method ChangeSubcommands(cmd: Command, cat: string, allow: bool)
      requires bits.Length == COMMAND_BITS && FlagOk()
      modifies this`allCommands, this`firstArgs, bits
      ensures FlagOk() && FlagIs(old(allCommands))
      ensures SetOf(bits[..]) == SetBits(old(SetOf(bits[..])), SubIdsIn(cmd, cat), allow)
      ensures PairsOf(firstArgs) == Forget(old(PairsOf(firstArgs)), SubIdsIn(cmd, cat))
    {
      hide Full;
      if cmd.subcommands.None? {
        return;
      }
      var subs := cmd.subcommands.value;
      var todo := subs.Keys;
      ghost var done: set<nat> := {};
      while todo != {}
        invariant todo <= subs.Keys
        invariant FlagOk() && FlagIs(old(allCommands))
        invariant done == set s | s in subs && s !in todo && cat in subs[s].categories :: subs[s].id
        invariant SetOf(bits[..]) == SetBits(old(SetOf(bits[..])), done, allow)
        invariant PairsOf(firstArgs) == Forget(old(PairsOf(firstArgs)), done)
        decreases todo
      {
        var s :| s in todo;
        if cat in subs[s].categories {
          ChangePerm(subs[s].id, None, allow);
          assert CommandIds(Command(subs[s].id, {}, None)) == {subs[s].id};
          SetBitsTwice(old(SetOf(bits[..])), done, {subs[s].id}, allow);
          ForgetTwice(old(PairsOf(firstArgs)), done, {subs[s].id});
          done := done + {subs[s].id};
          assert SetOf(bits[..]) == SetBits(old(SetOf(bits[..])), done, allow);
        }
        todo := todo - {s};
      }
    }

    /** Allows or denies one command of the table, and its subcommands, as far as they are in the category. */
    method ChangeIfIn(cmd: Command, cat: string, allow: bool)
      requires bits.Length == COMMAND_BITS && FlagOk()
      modifies this`allCommands, this`firstArgs, bits
      ensures FlagOk() && FlagIs(old(allCommands))
      ensures SetOf(bits[..]) == SetBits(old(SetOf(bits[..])), IdsIn(cmd, cat), allow)
      ensures PairsOf(firstArgs) == Forget(old(PairsOf(firstArgs)), ResetsIn(cmd, cat))
    {
      if cat in cmd.categories {
        ChangePerm(cmd.id, cmd.subcommands, allow);
        SetBitsTwice(old(SetOf(bits[..])), CommandIds(cmd), SubIdsIn(cmd, cat), allow);
        ForgetTwice(old(PairsOf(firstArgs)), {cmd.id}, SubIdsIn(cmd, cat));
      }
      ChangeSubcommands(cmd, cat, allow);
    }

    /** Allows or denies every command and subcommand in the category. */
    method ChangeCategory(t: Table, cat: string, allow: bool)
      requires bits.Length == COMMAND_BITS && FlagOk()
      modifies this`allCommands, this`firstArgs, bits
      ensures FlagOk() && FlagIs(old(allCommands))
      ensures SetOf(bits[..]) == SetBits(old(SetOf(bits[..])), CategoryIds(t, t.commands.Keys, cat), allow)
      ensures PairsOf(firstArgs) == Forget(old(PairsOf(firstArgs)), CategoryResets(t, t.commands.Keys, cat))
    {
      var todo := t.commands.Keys;
      ghost var done: set<string> := {};
      ghost var bits0, first0 := SetOf(bits[..]), PairsOf(firstArgs);
      while todo != {}
        invariant todo <= t.commands.Keys && done == t.commands.Keys - todo
        invariant FlagOk() && FlagIs(old(allCommands))
        invariant SetOf(bits[..]) == SetBits(bits0, CategoryIds(t, done, cat), allow)
        invariant PairsOf(firstArgs) == Forget(first0, CategoryResets(t, done, cat))
        decreases todo
      {
        var c :| c in todo;
        var cmd := t.commands[c];
        ChangeIfIn(cmd, cat, allow);
        SetBitsTwice(bits0, CategoryIds(t, done, cat), IdsIn(cmd, cat), allow);
        ForgetTwice(first0, CategoryResets(t, done, cat), ResetsIn(cmd, cat));
        CategoryMore(t, done, c, cat);
        todo, done := todo - {c}, done + {c};
      }
      assert done == t.commands.Keys;
    }

    /** Cuts the rules that a rule supersedes out of the retained text. */
    method CutSuperseded(t: Table, name: string)
      requires GoodNames(t) && AllKnown(t, kept) && rules == Joined(Tokens(kept))
      modifies this`rules, this`kept
      ensures kept == Compact(old(kept), name) && AllKnown(t, kept)
      ensures rules == Joined(Tokens(kept))
    {
      TokensAreTokens(t, kept);
      KeptTokens(kept, name);
      CompactKnown(t, kept, name);
      var n := |rules|;
      var buf := new char[n + 1](i requires 0 <= i <= n reads this => if i < |rules| then rules[i] else NUL);
      assert buf[..n] == rules;
      var len := RemoveRule(buf, name, Tokens(kept));
      kept := Compact(kept, name);
      rules := buf[..len];
    }

    /** Appends a rule to the retained text, after cutting what it supersedes. */
    method UpdateRules(t: Table, r: Rule)
      requires GoodNames(t) && Known(t, r) && AllKnown(t, kept)
      requires rules == Joined(Tokens(kept))
      modifies this`rules, this`kept
      ensures kept == Compact(old(kept), Name(r)) + [r]
      ensures AllKnown(t, kept)
      ensures rules == Joined(Tokens(kept))
    {
      CutSuperseded(t, Name(r));
      TokensAreTokens(t, kept);
      JoinedMore(Tokens(kept), Token(r));
      if rules != "" {
        rules := rules + " ";
      }
      rules := rules + Token(r);
      TokensMore(kept, r);
      kept := kept + [r];
    }

    /** All bits on, or all bits off; the retained rules and first arguments are forgotten. */
    method SetAll(value: bool)
      requires bits.Length == COMMAND_BITS
      modifies this, bits
      ensures FlagOk() && allCommands == value && rules == "" && kept == []
      ensures Permissions() == if value then Everything() else Nothing()
    {
      for i := 0 to bits.Length
        invariant forall k :: 0 <= k < i ==> bits[k] == value
      {
        bits[i] := value;
      }
      allCommands := value;
      firstArgs := map[];
      rules := "";
      kept := [];
      assert value ==> forall i :: InBitmap(i) ==> i in SetOf(bits[..]);
    }
  
    /** Applies a rule to the bitmap and the first arguments; arg is the first argument as it was written. */
    method ApplyRule(t: Table, r: Rule, arg: string)
      requires Known(t, r) && bits.Length == COMMAND_BITS && FlagOk()
      requires r.FirstArgRule? ==> Lower(arg) == r.arg
      modifies this`allCommands, this`firstArgs, bits
      ensures FlagOk() && FlagIs(old(allCommands))
      ensures Permissions() == Apply(EffectOf(t, r), old(Permissions()))
    {
      match r
      case CommandRule(allow, c) =>
        ChangePerm(t.commands[c].id, t.commands[c].subcommands, allow);
      case SubcommandRule(allow, c, s) =>
        ChangePerm(t.commands[c].subcommands.value[s].id, None, allow);
      case FirstArgRule(c, _) =>
        AddFirstArg(t.commands[c].id, arg);
      case CategoryRule(allow, cat) =>
        ChangeCategory(t, cat, allow);
    }

    /** Allows or denies all commands, and forgets the rules. */
    method StartOver(t: Table, allow: bool)
      requires GoodIds(t) && GoodNames(t) && Valid(t)
      modifies this, bits
      ensures Valid(t) && Abstract() == Step(t, old(Abstract()), if allow then AllCommands else NoCommands)
      ensures allCommands == allow
    {
      hide GoodIds, GoodNames, Consistent, Replay;
      StepConsistent(t, Abstract(), if allow then AllCommands else NoCommands);
      SetAll(allow);
    }

    /** Applies one rule and takes it into the retained text. */
    method DoRule(t: Table, r: Rule, arg: string)
      requires GoodIds(t) && GoodNames(t) && Valid(t) && Known(t, r)
      requires r.FirstArgRule? ==> Lower(arg) == r.arg
      modifies this, bits
      ensures Valid(t) && Abstract() == Step(t, old(Abstract()), Do(r)) && FlagIs(old(allCommands))
    {
      hide GoodIds, GoodNames, EffectOf, Apply, Name, Compact;
      StepConsistent(t, Abstract(), Do(r));
      ApplyRule(t, r, arg);
      UpdateRules(t, r);
    }

    lemma BoundedBits(t: Table)
      requires Valid(t)
      ensures Bounded(Permissions())
    {
    }

    lemma NoneIsNotFull()
      ensures !Full(Nothing().bits)
    {
      assert 0 !in Nothing().bits;
    }

    /** Applies one rule string; ok tells whether it was a rule about commands. */
    method SetSelector(t: Table, op: string) returns (ok: bool)
      requires GoodIds(t) && GoodNames(t) && Unquoted(op)
      requires Valid(t)
      modifies this, bits
      ensures Valid(t)
      ensures ok <==> Parse(t, op).Understood?
      ensures ok ==> KnownOp(t, Parse(t, op).op) && Abstract() == Step(t, old(Abstract()), Parse(t, op).op)
      ensures !ok ==> Abstract() == old(Abstract()) && allCommands == old(allCommands)
      ensures ok <==> Speaks(t, op)
      ensures ok ==> Means(t, op, old(Permissions()), Permissions())
      ensures ok ==>
        allCommands == (|| Lower(op) == "allcommands" || Lower(op) == "+@all"
                        || (old(allCommands) && Full(Permissions().bits)))
    {
      hide Parse, GoodIds, GoodNames, Valid, Speaks, Means, Known, Full, EffectOf, Compact, Lower;
      ParseKnown(t, op);
      UnderstoodIff(t, op);
      BoundedBits(t);
      NoneIsNotFull();
      var p := Parse(t, op);
      ok := p.Understood?;
      if ok {
        ParsedMeans(t, op, p.op, Abstract());
        WordsMean(t, op, p.op);
        match p.op
        case AllCommands => StartOver(t, true);
        case NoCommands => StartOver(t, false);
        case Do(r) =>
          var arg := "";
          if r.FirstArgRule? {
            FirstArgLower(t, op, r);
            arg := FirstArgText(op);
          }
          DoRule(t, r, arg);
      }
    }

    lemma NoFirstArgsOfSubs(t: Table, c: string, id: nat)
      requires GoodIds(t) && Valid(t) && c in t.commands && id in SubIds(t.commands[c]) && id in firstArgs
      ensures firstArgs[id] == []
    {
      FirstPair(firstArgs, id);
      ReplayFirst(t, kept, Start(Permissions()));
    }

    /**
     Whether a command may run: free commands always, others by the flag, by
     their bit, or by their first argument. Behind a container it would be the
     second argument, but subcommands have no first arguments.
     */
    method MayRun(t: Table, c: string, sub: Option<string>, free: bool, argv: seq<string>) returns (b: bool)
      requires GoodIds(t) && Valid(t) && c in t.commands && (sub.Some? ==> IsSub(t, c, sub.value))
      ensures var id := if sub.Some? then t.commands[c].subcommands.value[sub.value].id else t.commands[c].id;
        var arg := if sub.None? && |argv| > 1 then Some(argv[1]) else None;
        && b == (free || allCommands || Permits(Permissions(), id, arg))
        && (id < 1024 ==> b == (free || Permits(Permissions(), id, arg)))
    {
      var id := if sub.Some? then t.commands[c].subcommands.value[sub.value].id else t.commands[c].id;
      if !allCommands && !free {
        if id >= COMMAND_BITS || !bits[id] {
          if |argv| < 2 || id !in firstArgs {
            return false;
          }
          if sub.Some? {
            NoFirstArgsOfSubs(t, c, id);
          }
          b := FirstArgIn(id, argv, if sub.Some? then 2 else 1);
          return;
        }
      }
      return true;
    }

    /** The loop over the first arguments allowed for a command. */
    method FirstArgIn(id: nat, argv: seq<string>, idx: nat) returns (b: bool)
      requires id in firstArgs && (firstArgs[id] != [] ==> idx < |argv|)
      ensures firstArgs[id] == [] ==> !b
      ensures firstArgs[id] != [] ==> b == ((id, Lower(argv[idx])) in PairsOf(firstArgs))
    {
      for k := 0 to |firstArgs[id]|
        invariant forall j :: 0 <= j < k ==> Lower(firstArgs[id][j]) != Lower(argv[idx])
      {
        if Lower(argv[idx]) == Lower(firstArgs[id][k]) {
          return true;
        }
      }
      return false;
    }

    method ReplayToken(t: Table, token: string, ghost r: Rule) returns (ok: bool)
      requires GoodIds(t) && GoodNames(t) && Valid(t) && Known(t, r) && token == Token(r)
      modifies this, bits
      ensures ok && Valid(t) && Abstract() == Step(t, old(Abstract()), Do(r))
    {
      TokenUnderstood(t, r);
      ok := SetSelector(t, token);
    }

    /** Applies the kept rules, read back from text. */
    method ReplayText(t: Table, text: string, ghost rs: seq<Rule>) returns (ok: bool)
      requires GoodIds(t) && GoodNames(t) && Valid(t) && AllKnown(t, rs)
      requires text == Joined(Tokens(rs))
      modifies this, bits
      ensures ok && Valid(t) && Abstract() == Run(t, old(Abstract()), Dos(rs))
    {
      SplitTokens(t, rs);
      var split := SdsArgs.SplitLine(text);
      var argv := split.value;
      ghost var s0 := Abstract();
      ghost var s := s0;
      ok := true;
      for i := 0 to |argv|
        invariant ok && Valid(t) && Abstract() == s
        invariant s == Run(t, s0, Dos(rs[..i]))
      {
        RunMore(t, s0, rs, i);
        var res := ReplayToken(t, argv[i], rs[i]);
        ok := ok && res;
        s := Step(t, s, Do(rs[i]));
      }
      assert rs[..|rs|] == rs;
    }

    method CanExecuteFutureCommands() returns (b: bool)
      requires bits.Length == COMMAND_BITS
      ensures b <==> RESERVED_ID in Permissions().bits
    {
      b := bits[RESERVED_ID];
    }

    /** The rules as text. The second result says whether the sanity check would have stopped the server. */
    method Describe(t: Table) returns (text: string, panic: bool)
      requires GoodIds(t) && GoodNames(t) && Valid(t)
      ensures !panic
      ensures text == (if RESERVED_ID in Permissions().bits then "+@all" else "-@all")
        + (if rules == "" then "" else " " + rules)
    {
      var future := CanExecuteFutureCommands();
      var fake, ok := Rebuilt(t, future, rules, Abstract());
      SetOfEqual(fake.bits[..], bits[..]);
      text := if future then "+@all" else "-@all";
      if rules != "" {
        text := text + " " + rules;
      }
      panic := !ok || fake.bits[..] != bits[..];
    }

    /** A fresh selector built from the retained text alone. */
    static method Rebuilt(t: Table, future: bool, text: string, ghost s: State) returns (fake: Selector, ok: bool)
      requires GoodIds(t) && GoodNames(t) && Consistent(t, s)
      requires future <==> RESERVED_ID in s.perms.bits
      requires text == Joined(Tokens(s.rules))
      ensures fresh(fake) && fresh(fake.bits)
      ensures ok && fake.Valid(t) && fake.Abstract() == s
    {
      fake := new Selector();
      StartUnderstood(t, future);
      var started := fake.SetSelector(t, if future then "+@all" else "-@all");
      var replayed := fake.ReplayText(t, text, s.rules);
      Rebuilds(t, s, State(Nothing(), []));
      ok := started && replayed;
    }

    method ApplyOp(t: Table, op: string) returns (ok: bool)
      requires GoodIds(t) && GoodNames(t) && Unquoted(op) && Valid(t)
      modifies this, bits
      ensures Valid(t) && (ok <==> IsUnderstood(t, op))
      ensures ok ==> KnownOp(t, Parse(t, op).op) && Abstract() == Step(t, old(Abstract()), Parse(t, op).op)
    {
      ok := SetSelector(t, op);
    }

    /** A selector made from a list of rule strings, if all of them are understood. */
    static method FromOps(t: Table, ops: seq<string>) returns (s: Selector, ok: bool)
      requires GoodIds(t) && GoodNames(t)
      requires forall i :: 0 <= i < |ops| ==> Unquoted(ops[i])
      ensures s.Valid(t)
      ensures ok <==> AllUnderstood(t, ops)
      ensures ok ==> AllKnownOps(t, OpsOf(t, ops)) && s.Abstract() == Run(t, State(Nothing(), []), OpsOf(t, ops))
    {
      s := new Selector();
      ok := true;
      for i := 0 to |ops|
        invariant fresh(s) && fresh(s.bits)
        invariant ok && AllUnderstood(t, ops[..i])
        invariant s.Valid(t) && AllKnownOps(t, OpsOf(t, ops[..i]))
        invariant s.Abstract() == Run(t, State(Nothing(), []), OpsOf(t, ops[..i]))
      {
        ok := s.ApplyOp(t, ops[i]);
        if !ok {
          return;
        }
        OpsMore(t, ops, i);
        RunAppended(t, State(Nothing(), []), OpsOf(t, ops[..i]), Parse(t, ops[i]).op);
      }
      assert ops[..|ops|] == ops;
    }

    /**
     Recomputes the bitmap from the retained rules when the command table has
     become u: the rules stay, and mean what they mean in that table.
     */
    method Recompute(t: Table, u: Table) returns (ok: bool)
      requires Valid(t) && GoodIds(u) && GoodNames(u) && AllKnown(u, kept)
      modifies this, bits
      ensures ok && Valid(u) && kept == old(kept) && rules == old(rules)
      ensures Permissions() == Replay(u, kept, Start(old(Permissions())))
      ensures u == t ==> Abstract() == old(Abstract())
    {
      var text := rules;
      ghost var s0 := Abstract();
      var future := CanExecuteFutureCommands();
      SetAll(future);
      var replayed := ReplayText(u, text, s0.rules);
      RunDos(u, State(Start(s0.perms), []), s0.rules);
      ok := replayed;
    }
  }

  ghost predicate AllUnderstood(t: Table, ops: seq<string>) { forall i :: 0 <= i < |ops| ==> IsUnderstood(t, ops[i]) }

  ghost predicate AllKnownOps(t: Table, ops: seq<Op>) { forall i :: 0 <= i < |ops| ==> KnownOp(t, ops[i]) }

  /** What the rule strings ask for. */
  ghost function OpsOf(t: Table, ops: seq<string>): (r: seq<Op>)
    requires AllUnderstood(t, ops)
    ensures |r| == |ops| && forall i :: 0 <= i < |ops| ==> r[i] == Parse(t, ops[i]).op
  {
    seq(|ops|, i requires 0 <= i < |ops| => Parse(t, ops[i]).op)
  }

  lemma {:induction false} OpsMore(t: Table, ops: seq<string>, i: nat)
    requires i < |ops| && AllUnderstood(t, ops[..i]) && IsUnderstood(t, ops[i])
    ensures AllUnderstood(t, ops[..i + 1])
    ensures OpsOf(t, ops[..i + 1]) == OpsOf(t, ops[..i]) + [Parse(t, ops[i]).op]
  {
    assert ops[..i + 1] == ops[..i] + [ops[i]];
  }

  lemma {:induction false} RunAppended(t: Table, s: State, ops: seq<Op>, op: Op)
    requires AllKnownOps(t, ops) && KnownOp(t, op)
    ensures AllKnownOps(t, ops + [op]) && Run(t, s, ops + [op]) == Step(t, Run(t, s, ops), op)
  {
    assert (ops + [op])[..|ops|] == ops;
  }

  lemma {:induction false} SplitTokens(t: Table, rs: seq<Rule>)
    requires GoodNames(t) && AllKnown(t, rs)
    ensures SdsArgs.SplitArgs(Joined(Tokens(rs))) == Some(Tokens(rs))
  {
    forall i | 0 <= i < |rs| ensures SdsArgs.Bare(Tokens(rs)[i]) {
      NameChars(t, rs[i]);
    }
    SdsArgs.SplitJoined(Tokens(rs));
  }

  lemma {:induction false} RunMore(t: Table, s: State, rs: seq<Rule>, i: nat)
    requires AllKnown(t, rs) && i < |rs|
    ensures Run(t, s, Dos(rs[..i + 1])) == Step(t, Run(t, s, Dos(rs[..i])), Do(rs[i]))
  {
    var ops := Dos(rs[..i + 1]);
    assert ops[..i] == Dos(rs[..i]) && ops[i] == Do(rs[i]);
    RunLast(t, s, ops);
  }

  lemma RunLast(t: Table, s: State, ops: seq<Op>)
    requires ops != [] && forall i :: 0 <= i < |ops| ==> KnownOp(t, ops[i])
    ensures Run(t, s, ops) == Step(t, Run(t, s, ops[..|ops| - 1]), ops[|ops| - 1])
  {
  }

  lemma PairsOfAdd(firstArgs: map<nat, seq<string>>, id: nat, sub: string)
    ensures var args := if id in firstArgs then firstArgs[id] else [];
      PairsOf(firstArgs[id := args + [sub]]) == PairsOf(firstArgs) + {(id, Lower(sub))}
  {
    var args := if id in firstArgs then firstArgs[id] else [];
    var after := firstArgs[id := args + [sub]];
    forall x | x in PairsOf(firstArgs) + {(id, Lower(sub))} ensures x in PairsOf(after) {
      if x == (id, Lower(sub)) {
        assert after[id][|args|] == sub;
      } else {
        var k :| 0 <= k < |firstArgs[x.0]| && x.1 == Lower(firstArgs[x.0][k]);
        assert after[x.0][k] == firstArgs[x.0][k];
      }
    }
  }

  lemma SetBitsTwice(bits: set<nat>, a: set<nat>, b: set<nat>, value: bool)
    ensures SetBits(SetBits(bits, a, value), b, value) == SetBits(bits, a + b, value)
    ensures Full(bits) && Full(SetBits(bits, a + b, value)) ==> Full(SetBits(bits, a, value))
  {
  }

  lemma ForgetTwice(first: set<(nat, string)>, a: set<nat>, b: set<nat>)
    ensures Forget(Forget(first, a), b) == Forget(first, a + b)
  {
  }

  lemma CategoryMore(t: Table, cs: set<string>, c: string, cat: string)
    requires c in t.commands
    ensures CategoryIds(t, cs + {c}, cat) == CategoryIds(t, cs, cat) + IdsIn(t.commands[c], cat)
    ensures CategoryResets(t, cs + {c}, cat) == CategoryResets(t, cs, cat) + ResetsIn(t.commands[c], cat)
  {
  }

  lemma JoinedMore(ts: seq<string>, token: string)
    requires AreTokens(ts)
    ensures Joined(ts + [token]) == if ts == [] then token else Joined(ts) + " " + token
    ensures ts == [] <==> Joined(ts) == ""
  {
    JoinedConcat(ts, [token]);
    assert ts != [] ==> IsToken(ts[0]);
  }

  // ---------------------------------------------------------------------------
  // Command ids
  // ---------------------------------------------------------------------------

  ghost predicate GoodAssignment(ids: map<string, nat>) {
    && (forall n :: n in ids ==> ids[n] != RESERVED_ID)
    && (forall m, n :: m in ids && n in ids && ids[m] == ids[n] ==> m == n)
  }

  class CommandIdTable {
    var nextId: nat
    var ids: map<string, nat>

    ghost predicate Valid()
      reads this
    {
      && nextId == (if |ids| < RESERVED_ID then |ids| else |ids| + 1)
      && (forall n :: n in ids ==> ids[n] < nextId)
      && GoodAssignment(ids)
    }

    constructor ()
      ensures Valid() && ids == map[]
    {
      nextId := 0;
      ids := map[];
    }

    /** The id of a command name: the one it already has, or the next one in order, leaving out the reserved one. */
    method GetCommandID(name: string) returns (id: nat)
      requires Valid()
      modifies this
      ensures Valid()
      ensures Lower(name) in ids && ids[Lower(name)] == id
      ensures forall n :: n in old(ids) ==> n in ids && ids[n] == old(ids)[n]
      ensures ids.Keys == old(ids).Keys + {Lower(name)}
      ensures Lower(name) !in old(ids) ==> id == if |old(ids)| < 1023 then |old(ids)| else |old(ids)| + 1
    {
      var lower := Lower(name);
      if lower in ids {
        return ids[lower];
      }
      ids := ids[lower := nextId];
      id := nextId;
      nextId := nextId + 1;
      if nextId == COMMAND_BITS - 1 {
        nextId := nextId + 1;
      }
    }
  }

  /** A table whose ids were handed out by full name has the ids the rules rely on. */
  lemma AssignedIdsAreGood(t: Table, ids: map<string, nat>)
    requires GoodNames(t) && GoodAssignment(ids)
    requires forall c :: c in t.commands ==> c in ids && t.commands[c].id == ids[c]
    requires forall c, s ::
      c in t.commands && t.commands[c].subcommands.Some? && s in t.commands[c].subcommands.value ==>
      c + "|" + s in ids && t.commands[c].subcommands.value[s].id == ids[c + "|" + s]
    ensures GoodIds(t)
  {
    forall c, s | c in t.commands && t.commands[c].subcommands.Some? && s in t.commands[c].subcommands.value
      ensures t.commands[c].subcommands.value[s].id !in FirstArgIds(t)
    {
      forall d | d in t.commands ensures t.commands[d].id != t.commands[c].subcommands.value[s].id {
        assert Plain(d) && (c + "|" + s)[|c|] == '|';
        assert d != c + "|" + s;
      }
    }
  }
}
