/**
 What rule strings grant and deny, said of the strings themselves: which
 command ids and which first arguments are allowed before and after.
 */
module AclMeaning {

  import opened AclRules
  import opened Sds
  import opened Wrappers

  // ---------------------------------------------------------------------------
  // Who may run what
  // ---------------------------------------------------------------------------

  /** A command with this id, called with this first argument, may run. */
  ghost predicate Permits(p: Perms, id: nat, arg: Option<string>) {
    id in p.bits || (arg.Some? && (id, Lower(arg.value)) in p.first)
  }

  ghost predicate IsSubId(cmd: Command, i: nat) {
    cmd.subcommands.Some? && exists s :: s in cmd.subcommands.value && cmd.subcommands.value[s].id == i
  }

  // ---------------------------------------------------------------------------
  // Before and after
  // ---------------------------------------------------------------------------

  /** A bitmap has 1024 bits. */
  ghost predicate Bounded(p: Perms) { forall i :: i in p.bits ==> i < 1024 }

  /** All 1024 ids, and no first argument. */
  ghost predicate AllSet(q: Perms) { (forall i: nat :: i in q.bits <==> i < 1024) && q.first == {} }

  ghost predicate NoneSet(q: Perms) { q.bits == {} && q.first == {} }

  /** The command and its subcommands take the value, its first arguments are forgotten, and nothing else changes. */
  ghost predicate CommandSet(cmd: Command, value: bool, p: Perms, q: Perms) {
    && (forall i: nat ::
      i in q.bits <==> if i == cmd.id || IsSubId(cmd, i) then value && i < 1024 else i in p.bits)
    && (forall x: (nat, string) :: x in q.first <==> x in p.first && x.0 != cmd.id)
  }

  ghost predicate SubcommandSet(id: nat, value: bool, p: Perms, q: Perms) {
    && (forall i: nat :: i in q.bits <==> if i == id then value && i < 1024 else i in p.bits)
    && (forall x: (nat, string) :: x in q.first <==> x in p.first && x.0 != id)
  }

  /** One more first argument, and nothing else changes. */
  ghost predicate FirstArgSet(id: nat, arg: string, p: Perms, q: Perms) {
    q.bits == p.bits && forall x: (nat, string) :: x in q.first <==> x in p.first || x == (id, arg)
  }

  ghost predicate SubIn(cmd: Command, cat: string, i: nat) {
    && cmd.subcommands.Some?
    && exists s ::
      s in cmd.subcommands.value && cat in cmd.subcommands.value[s].categories && cmd.subcommands.value[s].id == i
  }

  /** The id of a command in the category or of any of its subcommands, or of a subcommand in the category. */
  ghost predicate InCategory(t: Table, cat: string, i: nat) {
    exists c ::
      && c in t.commands
      && (|| (cat in t.commands[c].categories && (i == t.commands[c].id || IsSubId(t.commands[c], i)))
          || SubIn(t.commands[c], cat, i))
  }

  /** The id of a command or subcommand that is itself in the category. */
  ghost predicate ItselfIn(t: Table, cat: string, i: nat) {
    exists c ::
      && c in t.commands
      && ((cat in t.commands[c].categories && i == t.commands[c].id) || SubIn(t.commands[c], cat, i))
  }

  ghost predicate CategorySet(t: Table, cat: string, value: bool, p: Perms, q: Perms) {
    && (forall i: nat :: i in q.bits <==> if InCategory(t, cat, i) then value && i < 1024 else i in p.bits)
    && (forall x: (nat, string) :: x in q.first <==> x in p.first && !ItselfIn(t, cat, x.0))
  }

  // ---------------------------------------------------------------------------
  // Rule strings
  // ---------------------------------------------------------------------------

  ghost predicate IsSub(t: Table, c: string, s: string) {
    c in t.commands && t.commands[c].subcommands.Some? && s in t.commands[c].subcommands.value
  }

  /** Commands that are no containers take first arguments. */
  ghost predicate TakesFirstArg(t: Table, c: string) { c in t.commands && t.commands[c].subcommands.None? }

  ghost predicate IsFirstArg(a: string) { a != "" && '|' !in a }

  /** The string, in any case, is about commands. */
  ghost predicate Speaks(t: Table, op: string) {
    var l := Lower(op);
    || l in {"allcommands", "+@all", "nocommands", "-@all"}
    || (exists c :: c in t.commands && (l == "+" + c || l == "-" + c))
    || (exists c, s :: IsSub(t, c, s) && (l == "+" + c + "|" + s || l == "-" + c + "|" + s))
    || (exists c, a :: TakesFirstArg(t, c) && IsFirstArg(a) && l == "+" + c + "|" + a)
    || (exists cat :: cat in t.categories && (l == "+@" + cat || l == "-@" + cat))
  }

  /** What the string says, in any case, about the permissions before and after. */
  ghost predicate Means(t: Table, op: string, p: Perms, q: Perms) {
    var l := Lower(op);
    && (l == "allcommands" || l == "+@all" ==> AllSet(q))
    && (l == "nocommands" || l == "-@all" ==> NoneSet(q))
    && (forall c :: c in t.commands ==>
      && (l == "+" + c ==> CommandSet(t.commands[c], true, p, q))
      && (l == "-" + c ==> CommandSet(t.commands[c], false, p, q)))
    && (forall c, s :: IsSub(t, c, s) ==>
      && (l == "+" + c + "|" + s ==> SubcommandSet(t.commands[c].subcommands.value[s].id, true, p, q))
      && (l == "-" + c + "|" + s ==> SubcommandSet(t.commands[c].subcommands.value[s].id, false, p, q)))
    && (forall c, a :: TakesFirstArg(t, c) && IsFirstArg(a) ==>
      l == "+" + c + "|" + a ==> FirstArgSet(t.commands[c].id, a, p, q))
    && (forall cat :: cat in t.categories ==>
      && (l == "+@" + cat ==> CategorySet(t, cat, true, p, q))
      && (l == "-@" + cat ==> CategorySet(t, cat, false, p, q)))
  }

  // ---------------------------------------------------------------------------
  // Steps do what the strings mean
  // ---------------------------------------------------------------------------

  lemma SubIdsAre(cmd: Command, i: nat)
    ensures i in SubIds(cmd) <==> IsSubId(cmd, i)
  {
  }

  lemma SubIdsInAre(cmd: Command, cat: string, i: nat)
    ensures i in SubIdsIn(cmd, cat) <==> SubIn(cmd, cat, i)
  {
  }

  lemma StepCommand(t: Table, s: State, allow: bool, c: string)
    requires c in t.commands && Bounded(s.perms)
    ensures CommandSet(t.commands[c], allow, s.perms, Step(t, s, Do(CommandRule(allow, c))).perms)
  {
    forall i: nat ensures i in SubIds(t.commands[c]) <==> IsSubId(t.commands[c], i) {
      SubIdsAre(t.commands[c], i);
    }
  }

  lemma StepSubcommand(t: Table, s: State, allow: bool, c: string, sub: string)
    requires IsSub(t, c, sub) && Bounded(s.perms)
    ensures SubcommandSet(t.commands[c].subcommands.value[sub].id, allow, s.perms,
                          Step(t, s, Do(SubcommandRule(allow, c, sub))).perms)
  {
  }

  lemma StepFirstArg(t: Table, s: State, c: string, a: string)
    requires TakesFirstArg(t, c) && Clean(a)
    ensures FirstArgSet(t.commands[c].id, a, s.perms, Step(t, s, Do(FirstArgRule(c, a))).perms)
  {
  }

  lemma CategoryIdsAre(t: Table, cat: string, i: nat)
    ensures i in CategoryIds(t, t.commands.Keys, cat) <==> InCategory(t, cat, i)
    ensures i in CategoryResets(t, t.commands.Keys, cat) <==> ItselfIn(t, cat, i)
  {
    forall c | c in t.commands
      ensures i in IdsIn(t.commands[c], cat) <==>
        (cat in t.commands[c].categories && (i == t.commands[c].id || IsSubId(t.commands[c], i)))
        || SubIn(t.commands[c], cat, i)
      ensures i in ResetsIn(t.commands[c], cat) <==>
        (cat in t.commands[c].categories && i == t.commands[c].id) || SubIn(t.commands[c], cat, i)
    {
      SubIdsAre(t.commands[c], i);
      SubIdsInAre(t.commands[c], cat, i);
    }
  }

  lemma StepCategory(t: Table, s: State, allow: bool, cat: string)
    requires cat in t.categories && Bounded(s.perms)
    ensures CategorySet(t, cat, allow, s.perms, Step(t, s, Do(CategoryRule(allow, cat))).perms)
  {
    forall i: nat
      ensures i in CategoryIds(t, t.commands.Keys, cat) <==> InCategory(t, cat, i)
      ensures i in CategoryResets(t, t.commands.Keys, cat) <==> ItselfIn(t, cat, i)
    {
      CategoryIdsAre(t, cat, i);
    }
    hide InCategory, ItselfIn, CategoryIds, CategoryResets;
  }

  lemma StepAll(t: Table, s: State)
    ensures AllSet(Step(t, s, AllCommands).perms) && NoneSet(Step(t, s, NoCommands).perms)
  {
  }

  // ---------------------------------------------------------------------------
  // Which rules stay
  // ---------------------------------------------------------------------------

  /** The new name itself, or anything of that name behind a separator. */
  ghost predicate Superseded(existing: string, name: string) { existing == name || name + "|" <= existing }

  lemma MatchesMeans(existing: string, name: string)
    ensures Matches(existing, name) <==> Superseded(existing, name)
  {
    if Matches(existing, name) && existing != name {
      assert existing[..|name| + 1] == name + "|";
    }
  }

  /** ix lists the positions in xs of the elements of kept, in order; those elements are not gone, all others are. */
  ghost predicate Retains<T>(gone: T -> bool, xs: seq<T>, kept: seq<T>, ix: seq<nat>) {
    && |ix| == |kept|
    && (forall k :: 0 <= k < |ix| ==> ix[k] < |xs| && xs[ix[k]] == kept[k] && !gone(kept[k]))
    && (forall j, k :: 0 <= j < k < |ix| ==> ix[j] < ix[k])
    && (forall i :: 0 <= i < |xs| ==> gone(xs[i]) || i in ix)
  }

  ghost function SupersededBy(name: string): Rule -> bool { (r: Rule) => Superseded(Name(r), name) }

  /** A rule drops exactly the superseded ones, keeps the others in order, and comes last. */
  lemma {:induction false} StepRules(t: Table, s: State, r: Rule) returns (ix: seq<nat>)
    requires Known(t, r)
    ensures var rules := Step(t, s, Do(r)).rules;
      rules != [] && rules[|rules| - 1] == r && Retains(SupersededBy(Name(r)), s.rules, rules[..|rules| - 1], ix)
  {
    ix := CompactRetains(s.rules, Name(r));
    var rules := Step(t, s, Do(r)).rules;
    assert rules[..|rules| - 1] == Compact(s.rules, Name(r));
  }

  lemma {:induction false} CompactRetains(rs: seq<Rule>, name: string) returns (ix: seq<nat>)
    ensures Retains(SupersededBy(name), rs, Compact(rs, name), ix)
    decreases |rs|
  {
    hide Retains;
    if rs == [] {
      ix := [];
      NothingRetained(SupersededBy(name));
    } else {
      var n := |rs| - 1;
      ix := CompactRetains(rs[..n], name);
      MatchesMeans(Name(rs[n]), name);
      assert rs[..n] + [rs[n]] == rs;
      if Matches(Name(rs[n]), name) {
        OneGone(SupersededBy(name), rs[..n], rs[n], Compact(rs[..n], name), ix);
      } else {
        OneMore(SupersededBy(name), rs[..n], rs[n], Compact(rs[..n], name), ix);
        ix := ix + [n];
      }
    }
  }

  lemma NothingRetained<T>(gone: T -> bool)
    ensures Retains(gone, [], [], [])
  {
  }

  lemma OneGone<T>(gone: T -> bool, xs: seq<T>, x: T, kept: seq<T>, ix: seq<nat>)
    requires Retains(gone, xs, kept, ix) && gone(x)
    ensures Retains(gone, xs + [x], kept, ix)
  {
    assert forall i :: 0 <= i < |xs| ==> (xs + [x])[i] == xs[i];
  }

  lemma OneMore<T>(gone: T -> bool, xs: seq<T>, x: T, kept: seq<T>, ix: seq<nat>)
    requires Retains(gone, xs, kept, ix) && !gone(x)
    ensures Retains(gone, xs + [x], kept + [x], ix + [|xs|])
  {
    var ys, more, jx := xs + [x], kept + [x], ix + [|xs|];
    assert forall k :: 0 <= k < |ix| ==> jx[k] == ix[k] && more[k] == kept[k] && ys[ix[k]] == xs[ix[k]];
    assert jx[|ix|] == |xs|;
    forall i | 0 <= i < |ys| ensures gone(ys[i]) || i in jx {
      if i < |xs| {
        assert ys[i] == xs[i];
      }
    }
  }
}
