/**
 What ACL command rules mean: a selector's permissions are a set of allowed
 command ids and a set of allowed first arguments, and every rule overwrites
 the permissions of the commands it names. The selector also keeps the rules
 themselves, dropping those a later rule supersedes; replaying the kept rules
 must give the same permissions as replaying them all.
 */
module AclRules {

  import opened Sds
  import opened Wrappers

  /** Number of bits in a selector's command bitmap, and the bit no command gets. */
  const COMMAND_BITS := 1024
  const RESERVED_ID := 1023

  // ---------------------------------------------------------------------------
  // Commands
  // ---------------------------------------------------------------------------

  datatype Subcommand = Subcommand(id: nat, categories: set<string>)

  /** A command; subcommands is None when the command is not a container. */
  datatype Command = Command(id: nat, categories: set<string>, subcommands: Option<map<string, Subcommand>>)

  /** The command table and the known category names, all in lower case. */
  datatype Table = Table(commands: map<string, Command>, categories: set<string>)

  function SubIds(cmd: Command): set<nat> {
    if cmd.subcommands.None? then {}
    else set s | s in cmd.subcommands.value :: cmd.subcommands.value[s].id
  }

  /** The ids a first-argument rule can name: commands that are not containers. */
  ghost function FirstArgIds(t: Table): set<nat> {
    set c | c in t.commands && t.commands[c].subcommands.None? :: t.commands[c].id
  }

  /** Neither splits nor quotes a token, and does not end the string. */
  predicate IsOrdinary(c: char) { !IsBlank(c) && c != '"' && c != '\'' && c != '\0' }

  /** A part of a rule name as it is kept: lower case, no separator. */
  predicate Clean(s: string) {
    && s != ""
    && forall i :: 0 <= i < |s| ==> s[i] != '|' && IsOrdinary(s[i]) && !('A' <= s[i] <= 'Z')
  }

  predicate Plain(s: string) { Clean(s) && s[0] != '@' }

  ghost predicate GoodNames(t: Table) {
    && (forall c :: c in t.commands ==> Plain(c))
    && (forall c, s :: c in t.commands && t.commands[c].subcommands.Some? && s in t.commands[c].subcommands.value ==>
      Plain(s))
    && (forall cat :: cat in t.categories ==> Clean(cat))
    && "all" !in t.categories
  }

  /** Ids are never the reserved one, and no subcommand shares an id with a command that takes first arguments. */
  ghost predicate GoodIds(t: Table) {
    forall c :: c in t.commands ==>
      && t.commands[c].id != RESERVED_ID
      && RESERVED_ID !in SubIds(t.commands[c])
      && SubIds(t.commands[c]) !! FirstArgIds(t)
  }

  /** Good tables exist: a command that takes first arguments, and a container. */
  lemma SmallTable(plain: string, container: string, sub: string) returns (t: Table)
    requires Plain(plain) && Plain(container) && Plain(sub) && plain != container
    ensures GoodNames(t) && GoodIds(t)
    ensures t.commands.Keys == {plain, container} && FirstArgIds(t) == {0}
    ensures t.commands[container].subcommands.Some? && sub in t.commands[container].subcommands.value
  {
    var first, second := Command(0, {}, None), Command(1, {}, Some(map[sub := Subcommand(2, {})]));
    t := Table(map[plain := first, container := second], {});
    assert SubIds(first) == {};
    assert forall i :: i in SubIds(second) ==> i == 2;
    assert t.commands[plain].id in FirstArgIds(t);
  }

  // ---------------------------------------------------------------------------
  // Rules and their effects
  // ---------------------------------------------------------------------------

  datatype Rule =
    | CommandRule(allow: bool, command: string)
    | SubcommandRule(allow: bool, command: string, sub: string)
    | FirstArgRule(command: string, arg: string)
    | CategoryRule(allow: bool, category: string)

  ghost predicate Known(t: Table, r: Rule) {
    match r
    case CommandRule(_, c) => c in t.commands
    case SubcommandRule(_, c, s) =>
      c in t.commands && t.commands[c].subcommands.Some? && s in t.commands[c].subcommands.value
    case FirstArgRule(c, a) => c in t.commands && t.commands[c].subcommands.None? && Clean(a)
    case CategoryRule(_, cat) => cat in t.categories
  }

  /** The name under which a rule is kept. */
  function Name(r: Rule): string {
    match r
    case CommandRule(_, c) => c
    case SubcommandRule(_, c, s) => c + "|" + s
    case FirstArgRule(c, a) => c + "|" + a
    case CategoryRule(_, cat) => "@" + cat
  }

  /** Allowed command ids and allowed (command id, first argument) pairs. */
  datatype Perms = Perms(bits: set<nat>, first: set<(nat, string)>)

  /** Sets the bits in ids to value, forgets the first arguments of resets, then allows those in adds. */
  datatype Effect = Effect(ids: set<nat>, value: bool, resets: set<nat>, adds: set<(nat, string)>)

  /** Setting an id past the end of the bitmap does nothing. */
  ghost function SetBits(bits: set<nat>, ids: set<nat>, value: bool): set<nat> {
    if value then bits + (set i | i in ids && i < COMMAND_BITS) else bits - ids
  }

  ghost function Forget(first: set<(nat, string)>, resets: set<nat>): set<(nat, string)> {
    set x | x in first && x.0 !in resets
  }

  ghost function Apply(e: Effect, p: Perms): Perms {
    Perms(SetBits(p.bits, e.ids, e.value), Forget(p.first, e.resets) + e.adds)
  }

  /** The ids set by allowing or denying one command: its own and those of its subcommands. */
  ghost function CommandIds(cmd: Command): set<nat> { {cmd.id} + SubIds(cmd) }

  /** The ids of the subcommands in a category. */
  ghost function SubIdsIn(cmd: Command, cat: string): set<nat> {
    if cmd.subcommands.None? then {}
    else set s | s in cmd.subcommands.value && cat in cmd.subcommands.value[s].categories :: cmd.subcommands.value[s].id
  }

  /** The ids a category rule sets for one command of the table, and those whose first arguments it forgets. */
  ghost function IdsIn(cmd: Command, cat: string): set<nat> {
    (if cat in cmd.categories then CommandIds(cmd) else {}) + SubIdsIn(cmd, cat)
  }

  ghost function ResetsIn(cmd: Command, cat: string): set<nat> {
    (if cat in cmd.categories then {cmd.id} else {}) + SubIdsIn(cmd, cat)
  }

  /** The same for all the commands in cs. */
  ghost function CategoryIds(t: Table, cs: set<string>, cat: string): set<nat> {
    set c, i | c in cs && c in t.commands && i in IdsIn(t.commands[c], cat) :: i
  }

  ghost function CategoryResets(t: Table, cs: set<string>, cat: string): set<nat> {
    set c, i | c in cs && c in t.commands && i in ResetsIn(t.commands[c], cat) :: i
  }

  ghost function EffectOf(t: Table, r: Rule): Effect
    requires Known(t, r)
  {
    match r
    case CommandRule(allow, c) => Effect(CommandIds(t.commands[c]), allow, {t.commands[c].id}, {})
    case SubcommandRule(allow, c, s) =>
      var id := t.commands[c].subcommands.value[s].id;
      Effect({id}, allow, {id}, {})
    case FirstArgRule(c, a) => Effect({}, true, {}, {(t.commands[c].id, a)})
    case CategoryRule(allow, cat) => Effect(CategoryIds(t, t.commands.Keys, cat), allow, CategoryResets(t,
        t.commands.Keys, cat), {})
  }

  ghost predicate AllKnown(t: Table, rs: seq<Rule>) {
    forall i :: 0 <= i < |rs| ==> Known(t, rs[i])
  }

  ghost function Replay(t: Table, rs: seq<Rule>, p: Perms): Perms
    requires AllKnown(t, rs)
  {
    if rs == [] then p else Apply(EffectOf(t, rs[|rs| - 1]), Replay(t, rs[..|rs| - 1], p))
  }

  // ---------------------------------------------------------------------------
  // Superseded rules
  // ---------------------------------------------------------------------------

  /** An existing rule goes when it has the new name or is a "name|..." of it. */
  predicate Matches(existing: string, name: string) {
    existing == name || (|existing| > |name| && existing[..|name|] == name && existing[|name|] == '|')
  }

  function Compact(rs: seq<Rule>, name: string): seq<Rule> {
    if rs == [] then []
    else
      var rest := Compact(rs[..|rs| - 1], name);
      if Matches(Name(rs[|rs| - 1]), name) then rest else rest + [rs[|rs| - 1]]
  }

  /** Only bits of the bitmap are set, and first arguments belong to commands that are not containers. */
  ghost predicate Sound(t: Table, p: Perms) {
    && (forall i :: i in p.bits ==> i < COMMAND_BITS)
    && (forall x :: x in p.first ==> x.0 in FirstArgIds(t))
  }

  /** p and q differ at most where effect e writes. */
  ghost predicate AgreeOutside(t: Table, e: Effect, p: Perms, q: Perms) {
    && Sound(t, p) && Sound(t, q)
    && (forall i :: i !in e.ids ==> (i in p.bits <==> i in q.bits))
    && (forall x :: x !in e.adds && x.0 !in e.resets ==> (x in p.first <==> x in q.first))
  }

  lemma AgreeThenEqual(t: Table, e: Effect, p: Perms, q: Perms)
    requires AgreeOutside(t, e, p, q)
    ensures Apply(e, p) == Apply(e, q)
  {
    assert Apply(e, p).bits == Apply(e, q).bits;
    assert Apply(e, p).first == Apply(e, q).first;
  }

  lemma ApplyKeeps(t: Table, r: Rule, p: Perms)
    requires GoodIds(t) && Known(t, r) && Sound(t, p)
    ensures Sound(t, Apply(EffectOf(t, r), p))
    ensures RESERVED_ID in Apply(EffectOf(t, r), p).bits <==> RESERVED_ID in p.bits
  {
  }

  lemma AgreePreserved(t: Table, e: Effect, r: Rule, p: Perms, q: Perms)
    requires GoodIds(t) && Known(t, r)
    requires AgreeOutside(t, e, p, q)
    ensures AgreeOutside(t, e, Apply(EffectOf(t, r), p), Apply(EffectOf(t, r), q))
  {
    ApplyKeeps(t, r, p);
    ApplyKeeps(t, r, q);
  }

  lemma SplitName(c: string, x: string, d: string, y: string)
    requires forall i :: 0 <= i < |c| ==> c[i] != '|'
    requires forall i :: 0 <= i < |d| ==> d[i] != '|'
    requires c + "|" + x == d + "|" + y
    ensures c == d && x == y
  {
    var u, v := c + "|" + x, d + "|" + y;
    assert u[|c|] == '|' && forall i :: 0 <= i < |c| ==> u[i] == c[i];
    assert v[|d|] == '|' && forall i :: 0 <= i < |d| ==> v[i] == d[i];
    assert |c| == |d|;
    assert u[..|c|] == c && v[..|d|] == d;
    assert u[|c| + 1..] == x && v[|d| + 1..] == y;
  }

  /** A rule matched by a later one writes nothing the later one does not write. */
  lemma MatchedIsCovered(t: Table, earlier: Rule, later: Rule, p: Perms)
    requires GoodIds(t) && GoodNames(t) && Known(t, earlier) && Known(t, later)
    requires Matches(Name(earlier), Name(later))
    requires Sound(t, p)
    ensures AgreeOutside(t, EffectOf(t, later), p, Apply(EffectOf(t, earlier), p))
  {
    ApplyKeeps(t, earlier, p);
    MatchedKinds(t, earlier, later);
  }

  lemma MatchedKinds(t: Table, earlier: Rule, later: Rule)
    requires GoodNames(t) && Known(t, earlier) && Known(t, later)
    requires Matches(Name(earlier), Name(later))
    ensures match later
      case CommandRule(_, c) => !earlier.CategoryRule? && earlier.command == c
      case SubcommandRule(_, c, s) => earlier.SubcommandRule? && earlier.command == c && earlier.sub == s
      case FirstArgRule(c, a) => earlier == later
      case CategoryRule(_, cat) => earlier.CategoryRule? && earlier.category == cat
  {
    match later
    case CommandRule(_, c) =>
      match earlier {
        case CommandRule(_, d) =>
        case SubcommandRule(_, d, s) => MatchedPrefix(c, d, s);
        case FirstArgRule(d, a) => MatchedPrefix(c, d, a);
        case CategoryRule(_, cat) =>
      }
    case SubcommandRule(_, c, s) => MatchedWhole(t, earlier, c, s);
    case FirstArgRule(c, a) => MatchedWhole(t, earlier, c, a);
    case CategoryRule(_, cat) =>
      assert Name(earlier)[0] == '@';
      assert Name(earlier)[1..] == earlier.category && Name(later)[1..] == cat;
  }

  lemma MatchedPrefix(c: string, d: string, x: string)
    requires Plain(c) && Plain(d)
    requires Matches(d + "|" + x, c)
    ensures c == d
  {
    var e := d + "|" + x;
    assert e[|d|] == '|';
    assert e == c + "|" + e[|c| + 1..];
    SplitName(d, x, c, e[|c| + 1..]);
  }

  /** A name with one separator is matched only by itself. */
  lemma MatchedWhole(t: Table, earlier: Rule, c: string, x: string)
    requires GoodNames(t) && Known(t, earlier) && Plain(c)
    requires Matches(Name(earlier), c + "|" + x)
    ensures earlier.SubcommandRule? || earlier.FirstArgRule?
    ensures earlier.command == c && x == if earlier.SubcommandRule? then earlier.sub else earlier.arg
  {
    var e, n := Name(earlier), c + "|" + x;
    assert n[|c|] == '|' && e[|c|] == e[..|n|][|c|];
    if earlier.SubcommandRule? || earlier.FirstArgRule? {
      var y := if earlier.SubcommandRule? then earlier.sub else earlier.arg;
      assert e == c + "|" + e[|c| + 1..];
      SplitName(earlier.command, y, c, e[|c| + 1..]);
      assert n == c + "|" + n[|c| + 1..] && n[|c| + 1..] == x;
      assert Clean(y) by { assert earlier.SubcommandRule? ==> Plain(earlier.sub); }
      assert forall k :: |c| < k < |e| ==> e[k] == y[k - |c| - 1];
      assert |e| == |n|;
    }
  }

  lemma ReplayFirst(t: Table, rs: seq<Rule>, p: Perms)
    requires GoodIds(t) && AllKnown(t, rs) && Sound(t, p)
    ensures Sound(t, Replay(t, rs, p))
    ensures RESERVED_ID in Replay(t, rs, p).bits <==> RESERVED_ID in p.bits
  {
    if rs != [] {
      ReplayFirst(t, rs[..|rs| - 1], p);
      ApplyKeeps(t, rs[|rs| - 1], Replay(t, rs[..|rs| - 1], p));
    }
  }

  lemma CompactKnown(t: Table, rs: seq<Rule>, name: string)
    requires AllKnown(t, rs)
    ensures AllKnown(t, Compact(rs, name))
  {
  }

  /** Dropping the superseded rules changes nothing outside what the new rule writes. */
  lemma CompactAgrees(t: Table, rs: seq<Rule>, r: Rule, p: Perms)
    requires GoodIds(t) && GoodNames(t) && AllKnown(t, rs) && Known(t, r) && Sound(t, p)
    ensures AllKnown(t, Compact(rs, Name(r)))
    ensures AgreeOutside(t, EffectOf(t, r), Replay(t, Compact(rs, Name(r)), p), Replay(t, rs, p))
  {
    CompactKnown(t, rs, Name(r));
    if rs == [] {
    } else {
      var init, last := rs[..|rs| - 1], rs[|rs| - 1];
      var kept := Compact(init, Name(r));
      CompactAgrees(t, init, r, p);
      ReplayFirst(t, init, p);
      if Matches(Name(last), Name(r)) {
        MatchedIsCovered(t, last, r, Replay(t, init, p));
      } else {
        AgreePreserved(t, EffectOf(t, r), last, Replay(t, kept, p), Replay(t, init, p));
        assert (kept + [last])[..|kept|] == kept;
      }
    }
  }

  /** The kept rules and all the rules replay to the same permissions. */
  lemma CompactReplays(t: Table, rs: seq<Rule>, r: Rule, p: Perms)
    requires GoodIds(t) && GoodNames(t) && AllKnown(t, rs) && Known(t, r) && Sound(t, p)
    ensures AllKnown(t, Compact(rs, Name(r)) + [r])
    ensures Replay(t, Compact(rs, Name(r)) + [r], p) == Apply(EffectOf(t, r), Replay(t, rs, p))
  {
    var kept := Compact(rs, Name(r));
    CompactAgrees(t, rs, r, p);
    AgreeThenEqual(t, EffectOf(t, r), Replay(t, kept, p), Replay(t, rs, p));
    assert (kept + [r])[..|kept|] == kept;
  }

  // ---------------------------------------------------------------------------
  // Selectors
  // ---------------------------------------------------------------------------

  datatype Op = AllCommands | NoCommands | Do(rule: Rule)

  datatype State = State(perms: Perms, rules: seq<Rule>)

  predicate InBitmap(i: int) { 0 <= i < COMMAND_BITS }

  ghost function Everything(): Perms { Perms(set i | 0 <= i < COMMAND_BITS && InBitmap(i), {}) }

  ghost function Nothing(): Perms { Perms({}, {}) }

  ghost predicate KnownOp(t: Table, op: Op) { op.Do? ==> Known(t, op.rule) }

  ghost function Step(t: Table, s: State, op: Op): State
    requires KnownOp(t, op)
  {
    match op
    case AllCommands => State(Everything(), [])
    case NoCommands => State(Nothing(), [])
    case Do(r) => State(Apply(EffectOf(t, r), s.perms), Compact(s.rules, Name(r)) + [r])
  }

  ghost function Run(t: Table, s: State, ops: seq<Op>): State
    requires forall i :: 0 <= i < |ops| ==> KnownOp(t, ops[i])
  {
    if ops == [] then s else Step(t, Run(t, s, ops[..|ops| - 1]), ops[|ops| - 1])
  }

  /** Where a replay starts: the reserved bit tells +@all from -@all. */
  ghost function Start(p: Perms): Perms {
    if RESERVED_ID in p.bits then Everything() else Nothing()
  }

  /** No kept rule is superseded by a later one. */
  ghost predicate Irredundant(rs: seq<Rule>) {
    forall i, j :: 0 <= i < j < |rs| ==> !Matches(Name(rs[i]), Name(rs[j]))
  }

  ghost predicate Consistent(t: Table, s: State) {
    && AllKnown(t, s.rules)
    && Irredundant(s.rules)
    && s.perms == Replay(t, s.rules, Start(s.perms))
  }

  lemma CompactKept(rs: seq<Rule>, name: string)
    requires Irredundant(rs)
    ensures Irredundant(Compact(rs, name))
    ensures forall r :: r in Compact(rs, name) ==> r in rs && !Matches(Name(r), name)
  {
  }

  lemma StepConsistent(t: Table, s: State, op: Op)
    requires GoodIds(t) && GoodNames(t) && KnownOp(t, op)
    requires Consistent(t, s)
    ensures Consistent(t, Step(t, s, op))
  {
    if op.Do? {
      StepReplays(t, s, op.rule);
      StepIrredundant(s.rules, op.rule);
    }
  }

  lemma StepReplays(t: Table, s: State, r: Rule)
    requires GoodIds(t) && GoodNames(t) && Known(t, r)
    requires Consistent(t, s)
    ensures AllKnown(t, Compact(s.rules, Name(r)) + [r])
    ensures var p := Apply(EffectOf(t, r), s.perms);
      p == Replay(t, Compact(s.rules, Name(r)) + [r], Start(p))
  {
    var start := Start(s.perms);
    CompactReplays(t, s.rules, r, start);
    ReplayFirst(t, s.rules, start);
    ApplyKeeps(t, r, s.perms);
  }

  lemma StepIrredundant(rs: seq<Rule>, r: Rule)
    requires Irredundant(rs)
    ensures Irredundant(Compact(rs, Name(r)) + [r])
  {
    CompactKept(rs, Name(r));
  }

  /** In every reachable state the kept rules rebuild the permissions. */
  lemma RunConsistent(t: Table, s: State, ops: seq<Op>)
    requires GoodIds(t) && GoodNames(t)
    requires forall i :: 0 <= i < |ops| ==> KnownOp(t, ops[i])
    requires Consistent(t, s)
    ensures Consistent(t, Run(t, s, ops))
  {
    if ops != [] {
      RunConsistent(t, s, ops[..|ops| - 1]);
      StepConsistent(t, Run(t, s, ops[..|ops| - 1]), ops[|ops| - 1]);
    }
  }

  // ---------------------------------------------------------------------------
  // Rebuilding a selector from its kept rules
  // ---------------------------------------------------------------------------

  ghost function StartOp(p: Perms): Op {
    if RESERVED_ID in p.bits then AllCommands else NoCommands
  }

  function Dos(rs: seq<Rule>): (ops: seq<Op>)
    ensures |ops| == |rs|
  {
    seq(|rs|, i requires 0 <= i < |rs| => Do(rs[i]))
  }

  lemma {:induction false} NothingToCompact(rs: seq<Rule>, name: string)
    requires forall i :: 0 <= i < |rs| ==> !Matches(Name(rs[i]), name)
    ensures Compact(rs, name) == rs
  {
    hide Matches, Name;
    if rs != [] {
      var init, last := rs[..|rs| - 1], rs[|rs| - 1];
      assert forall i :: 0 <= i < |init| ==> init[i] == rs[i];
      NothingToCompact(init, name);
      assert !Matches(Name(last), name);
      assert init + [last] == rs;
    }
  }

  lemma {:induction false} StepAdds(t: Table, p: Perms, rs: seq<Rule>, r: Rule)
    requires Known(t, r) && forall i :: 0 <= i < |rs| ==> !Matches(Name(rs[i]), Name(r))
    ensures Step(t, State(p, rs), Do(r)) == State(Apply(EffectOf(t, r), p), rs + [r])
  {
    hide Matches, Name, EffectOf, Apply, Compact;
    NothingToCompact(rs, Name(r));
  }

  lemma {:induction false} RunDosLast(t: Table, s: State, rs: seq<Rule>)
    requires rs != [] && AllKnown(t, rs)
    ensures Run(t, s, Dos(rs)) == Step(t, Run(t, s, Dos(rs[..|rs| - 1])), Do(rs[|rs| - 1]))
  {
    hide Step, Known;
    assert Dos(rs)[..|rs| - 1] == Dos(rs[..|rs| - 1]);
  }

  lemma {:induction false} RunDos(t: Table, s: State, rs: seq<Rule>)
    requires AllKnown(t, rs) && Irredundant(rs)
    requires s.rules == []
    ensures Run(t, s, Dos(rs)) == State(Replay(t, rs, s.perms), rs)
  {
    hide Matches, Name, EffectOf, Apply, Step;
    if rs != [] {
      var init, last := rs[..|rs| - 1], rs[|rs| - 1];
      assert forall i :: 0 <= i < |init| ==> init[i] == rs[i];
      RunDos(t, s, init);
      RunDosLast(t, s, rs);
      StepAdds(t, Replay(t, init, s.perms), init, last);
      assert init + [last] == rs;
    }
  }

  /** Applying the start rule and the kept rules to any selector rebuilds permissions and rules alike. */
  lemma {:induction false} Rebuilds(t: Table, s: State, other: State)
    requires Consistent(t, s)
    ensures Run(t, Step(t, other, StartOp(s.perms)), Dos(s.rules)) == s
  {
    RunDos(t, Step(t, other, StartOp(s.perms)), s.rules);
  }
}
