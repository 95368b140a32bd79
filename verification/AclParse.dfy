/**
 Reading a rule string: which rule about commands it is, in any case.
 */
module AclParse {

  import opened AclMeaning
  import opened AclRules
  import opened AclText
  import opened Sds
  import opened Wrappers

  /** The position of the last separator, or -1. */
  function LastBar(s: string): (i: int)
    ensures -1 <= i < |s|
    ensures 0 <= i ==> s[i] == '|'
    ensures forall k :: i < k < |s| ==> s[k] != '|'
  {
    if s == "" then -1
    else if s[|s| - 1] == '|' then |s| - 1
    else LastBar(s[..|s| - 1])
  }

  function FirstBar(s: string): (i: nat)
    ensures i <= |s|
    ensures i < |s| ==> s[i] == '|'
    ensures forall k :: 0 <= k < i ==> s[k] != '|'
  {
    if s == "" || s[0] == '|' then 0 else 1 + FirstBar(s[1..])
  }

  datatype Found = Missing | Top(command: string) | Sub(command: string, sub: string)

  /** Command lookup: "command" or "container|subcommand", in any case. */
  function Lookup(t: Table, name: string): Found {
    var l := Lower(name);
    var i := FirstBar(l);
    if i == |l| then
      if l in t.commands then Top(l) else Missing
    else if l[..i] in t.commands && t.commands[l[..i]].subcommands.Some?
      && l[i + 1..] in t.commands[l[..i]].subcommands.value then Sub(l[..i], l[i + 1..])
    else Missing
  }

  datatype Parsed = Understood(op: Op) | Invalid | Unrelated

  function ParseAllow(t: Table, name: string): Parsed {
    var i := LastBar(name);
    if i == -1 then
      match Lookup(t, name)
      case Top(c) => Understood(Do(CommandRule(true, c)))
      case _ => Invalid
    else
      match Lookup(t, name[..i])
      case Missing => Invalid
      case Sub(_, _) => Invalid
      case Top(c) =>
        if name[i + 1..] == "" then Invalid
        else if t.commands[c].subcommands.Some? then
          match Lookup(t, name) {
            case Sub(d, s) => Understood(Do(SubcommandRule(true, d, s)))
            case _ => Invalid
          }
        else Understood(Do(FirstArgRule(c, Lower(name[i + 1..]))))
  }

  function ParseDeny(t: Table, name: string): Parsed {
    match Lookup(t, name)
    case Missing => Invalid
    case Top(c) => Understood(Do(CommandRule(false, c)))
    case Sub(c, s) => Understood(Do(SubcommandRule(false, c, s)))
  }

  /** What a rule string asks for; Unrelated strings concern keys and channels. */
  function Parse(t: Table, op: string): Parsed {
    if Lower(op) == "allcommands" || Lower(op) == "+@all" then Understood(AllCommands)
    else if Lower(op) == "nocommands" || Lower(op) == "-@all" then Understood(NoCommands)
    else if op == "" then Invalid
    else if op[0] == '+' || op[0] == '-' then
      if |op| > 1 && op[1] == '@' then
        if Lower(op[2..]) in t.categories then Understood(Do(CategoryRule(op[0] == '+', Lower(op[2..])))) else Invalid
      else if op[0] == '+' then ParseAllow(t, op[1..])
      else ParseDeny(t, op[1..])
    else Unrelated
  }

  predicate IsUnderstood(t: Table, op: string) { Parse(t, op).Understood? }

  /** A rule string that neither splits nor quotes a token. */
  predicate Unquoted(op: string) {
    forall i :: 0 <= i < |op| ==> IsOrdinary(op[i])
  }

  lemma {:induction false} AllowKnown(t: Table, name: string)
    requires Unquoted(name)
    ensures ParseAllow(t, name).Understood? ==> KnownOp(t, ParseAllow(t, name).op)
  {
    var i := LastBar(name);
    if i != -1 && name[i + 1..] != "" {
      var a := name[i + 1..];
      assert forall k :: 0 <= k < |a| ==> a[k] == name[i + 1 + k];
      assert Clean(Lower(a));
    }
  }

  lemma DenyKnown(t: Table, name: string)
    ensures ParseDeny(t, name).Understood? ==> KnownOp(t, ParseDeny(t, name).op)
  {
  }

  lemma {:induction false} ParseKnown(t: Table, op: string)
    requires Unquoted(op)
    ensures Parse(t, op).Understood? ==> KnownOp(t, Parse(t, op).op)
  {
    hide ParseAllow;
    if op != "" {
      AllowKnown(t, op[1..]);
      DenyKnown(t, op[1..]);
    }
  }

  /** A string starting with a sign is read by its sign and the rest. */
  lemma {:induction false} ParseSigned(t: Table, sign: char, name: string)
    requires sign == '+' || sign == '-'
    requires name != "" && Lower(name) != "@all"
    ensures Parse(t, [sign] + name) ==
      if name[0] == '@' then
        if Lower(name[1..]) in t.categories then Understood(Do(CategoryRule(sign == '+',
            Lower(name[1..])))) else Invalid
      else if sign == '+' then ParseAllow(t, name)
      else ParseDeny(t, name)
  {
    var op := [sign] + name;
    assert op[1..] == name && op[2..] == name[1..];
    var l := Lower(op);
    assert l[0] == sign && l[1..] == Lower(name);
    assert "+@all"[1..] == "@all" && "-@all"[1..] == "@all";
    assert "allcommands"[0] == 'a' && "nocommands"[0] == 'n';
  }

  /** The name of a command, subcommand or first-argument rule reads back as that rule. */
  lemma {:induction false} ParseCommandName(t: Table, c: string)
    requires GoodNames(t) && c in t.commands
    ensures ParseAllow(t, c) == Understood(Do(CommandRule(true, c)))
    ensures ParseDeny(t, c) == Understood(Do(CommandRule(false, c)))
    ensures c != "" && c[0] != '@'
  {
    hide GoodNames, Lookup, LastBar;
    LookupTop(t, c);
  }

  lemma {:induction false} ParseSubcommandName(t: Table, c: string, s: string)
    requires GoodNames(t) && Known(t, SubcommandRule(true, c, s))
    ensures ParseAllow(t, c + "|" + s) == Understood(Do(SubcommandRule(true, c, s)))
    ensures ParseDeny(t, c + "|" + s) == Understood(Do(SubcommandRule(false, c, s)))
    ensures (c + "|" + s)[0] != '@'
  {
    hide GoodNames, Lookup, LastBar;
    LookupTop(t, c);
    LookupSub(t, c, s);
  }

  lemma {:induction false} ParseFirstArgName(t: Table, c: string, a: string)
    requires GoodNames(t) && Known(t, FirstArgRule(c, a))
    ensures ParseAllow(t, c + "|" + a) == Understood(Do(FirstArgRule(c, a)))
    ensures (c + "|" + a)[0] != '@'
  {
    hide GoodNames, Lookup, LastBar;
    LookupTop(t, c);
    LastOfTwo(c, a);
    LowerFixed(a);
  }

  lemma {:induction false} ParseName(t: Table, r: Rule)
    requires GoodNames(t) && Known(t, r) && !r.CategoryRule?
    ensures Allows(r) ==> ParseAllow(t, Name(r)) == Understood(Do(r))
    ensures !Allows(r) ==> ParseDeny(t, Name(r)) == Understood(Do(r))
    ensures Name(r)[0] != '@'
  {
    match r
    case CommandRule(allow, c) => ParseCommandName(t, c);
    case SubcommandRule(allow, c, s) => ParseSubcommandName(t, c, s);
    case FirstArgRule(c, a) => ParseFirstArgName(t, c, a);
  }

  /** A kept token reads back as the rule it was made from. */
  lemma {:induction false} ParseToken(t: Table, r: Rule)
    requires GoodNames(t) && Known(t, r)
    ensures Parse(t, Token(r)) == Understood(Do(r))
  {
    var name := Name(r);
    var sign := if Allows(r) then '+' else '-';
    NameChars(t, r);
    LowerFixed(name);
    assert Token(r) == [sign] + name;
    if r.CategoryRule? {
      assert name[1..] == r.category && "@all"[1..] == "all";
      LowerFixed(r.category);
    } else {
      ParseName(t, r);
      assert "@all"[0] == '@';
    }
    ParseSigned(t, sign, name);
  }

  lemma {:induction false} LookupTop(t: Table, c: string)
    requires GoodNames(t) && c in t.commands
    ensures Lookup(t, c) == Top(c) && LastBar(c) == -1 && Plain(c)
  {
    assert Plain(c);
    LowerFixed(c);
  }

  lemma {:induction false} LastOfTwo(c: string, x: string)
    requires Clean(c) && Clean(x)
    ensures LastBar(c + "|" + x) == FirstBar(c + "|" + x) == |c|
    ensures (c + "|" + x)[..|c|] == c && (c + "|" + x)[|c| + 1..] == x
    ensures Lower(c + "|" + x) == c + "|" + x
  {
    var n := c + "|" + x;
    BarsOfPair(c, x, n);
    CleanPair(c, x);
    LowerFixed(n);
    assert n[..|c|] == c && n[|c| + 1..] == x;
  }

  lemma BarsOfPair(c: string, x: string, n: string)
    requires n == c + "|" + x && Clean(c) && Clean(x)
    ensures LastBar(n) == FirstBar(n) == |c|
  {
    hide IsOrdinary;
    assert n[|c|] == '|';
    assert forall k :: |c| < k < |n| ==> n[k] == x[k - |c| - 1];
    assert forall k :: 0 <= k < |c| ==> n[k] == c[k];
  }

  lemma CleanPair(c: string, x: string)
    requires Clean(c) && Clean(x)
    ensures forall i :: 0 <= i < |c + "|" + x| ==> !('A' <= (c + "|" + x)[i] <= 'Z')
  {
  }

  lemma {:induction false} LookupSub(t: Table, c: string, s: string)
    requires GoodNames(t) && Known(t, SubcommandRule(true, c, s))
    ensures Lookup(t, c + "|" + s) == Sub(c, s)
    ensures LastBar(c + "|" + s) == |c| && (c + "|" + s)[..|c|] == c && (c + "|" + s)[|c| + 1..] == s && s != ""
  {
    assert Plain(c) && Plain(s);
    LastOfTwo(c, s);
  }

  /** The first argument in a rule string, in the case it was written in. */
  function FirstArgText(op: string): string
    requires op != ""
  {
    op[1..][LastBar(op[1..]) + 1..]
  }

  lemma {:induction false} FirstArgAllowed(t: Table, name: string, r: Rule)
    requires ParseAllow(t, name) == Understood(Do(r)) && r.FirstArgRule?
    ensures Lower(name[LastBar(name) + 1..]) == r.arg
  {
    hide Lookup, Lower;
  }

  lemma {:induction false} FirstArgLower(t: Table, op: string, r: Rule)
    requires Parse(t, op) == Understood(Do(r)) && r.FirstArgRule?
    ensures op != "" && Lower(FirstArgText(op)) == r.arg
  {
    hide ParseAllow, ParseDeny;
    assert Parse(t, op) == ParseAllow(t, op[1..]) by {
      NotDenied(t, op[1..], r);
    }
    FirstArgAllowed(t, op[1..], r);
  }

  lemma NotDenied(t: Table, name: string, r: Rule)
    requires r.FirstArgRule?
    ensures ParseDeny(t, name) != Understood(Do(r))
  {
  }

  lemma {:induction false} TokenUnderstood(t: Table, r: Rule)
    requires GoodNames(t) && Known(t, r)
    ensures Parse(t, Token(r)) == Understood(Do(r))
    ensures Unquoted(Token(r))
  {
    ParseToken(t, r);
    NameChars(t, r);
  }

  lemma {:induction false} StartUnderstood(t: Table, future: bool)
    ensures var op := if future then "+@all" else "-@all";
      Unquoted(op) && Parse(t, op) == Understood(if future then AllCommands else NoCommands)
  {
    LowerFixed("+@all");
    LowerFixed("-@all");
  }

  // ---------------------------------------------------------------------------
  // Upper and lower case
  // ---------------------------------------------------------------------------

  lemma LowerTwice(s: string)
    ensures Lower(Lower(s)) == Lower(s)
  {
  }

  lemma LowerSlice(s: string, a: nat, b: nat)
    requires a <= b <= |s|
    ensures Lower(s[a..b]) == Lower(s)[a..b]
  {
  }

  lemma LowerSplit(s: string, i: nat)
    requires i < |s|
    ensures Lower(s[..i]) == Lower(s)[..i] && Lower(s[i + 1..]) == Lower(s)[i + 1..]
  {
  }

  lemma LastBarLower(s: string)
    ensures LastBar(Lower(s)) == LastBar(s)
  {
    var i, j, l := LastBar(s), LastBar(Lower(s)), Lower(s);
    assert i >= 0 ==> l[i] == '|';
    assert j >= 0 ==> s[j] == '|';
  }

  lemma LookupLower(t: Table, name: string)
    ensures Lookup(t, Lower(name)) == Lookup(t, name)
  {
    LowerTwice(name);
  }

  lemma {:induction false} ParseAllowLower(t: Table, name: string)
    ensures ParseAllow(t, Lower(name)) == ParseAllow(t, name)
  {
    hide Lookup, LastBar;
    LookupLower(t, name);
    LastBarLower(name);
    var i := LastBar(name);
    if i != -1 {
      LowerSplit(name, i);
      LookupLower(t, name[..i]);
      LowerTwice(name[i + 1..]);
    }
  }

  lemma {:induction false} ParseLower(t: Table, op: string)
    ensures Parse(t, Lower(op)) == Parse(t, op)
  {
    hide ParseAllow, ParseDeny;
    LowerTwice(op);
    if op != "" {
      var l := Lower(op);
      LowerSlice(op, 1, |op|);
      assert op[1..|op|] == op[1..] && l[1..|op|] == l[1..];
      ParseAllowLower(t, op[1..]);
      ParseDenyLower(t, op[1..]);
      if |op| > 1 {
        LowerSlice(op, 2, |op|);
        assert op[2..|op|] == op[2..] && l[2..|op|] == l[2..];
        LowerTwice(op[2..]);
      }
    }
  }

  lemma ParseDenyLower(t: Table, name: string)
    ensures ParseDeny(t, Lower(name)) == ParseDeny(t, name)
  {
    LookupLower(t, name);
  }

  // ---------------------------------------------------------------------------
  // What is understood, and what it means
  // ---------------------------------------------------------------------------

  lemma {:induction false} AllowToken(t: Table, name: string, r: Rule)
    requires ParseAllow(t, name) == Understood(Do(r))
    ensures Lower(name) == Name(r) && Allows(r) && !r.CategoryRule?
  {
    hide Lookup, LastBar, Lower;
    var i := LastBar(name);
    FoundName(t, name);
    if i != -1 {
      FoundName(t, name[..i]);
      LowerAround(name, i);
    }
  }

  lemma LowerAround(s: string, i: nat)
    requires i < |s| && s[i] == '|'
    ensures Lower(s) == Lower(s[..i]) + "|" + Lower(s[i + 1..])
  {
    LowerSplit(s, i);
    assert Lower(s) == Lower(s)[..i] + "|" + Lower(s)[i + 1..];
  }

  lemma {:induction false} FoundName(t: Table, name: string)
    ensures match Lookup(t, name)
      case Missing => true
      case Top(c) => Lower(name) == c && c in t.commands
      case Sub(c, s) => Lower(name) == c + "|" + s && IsSub(t, c, s)
  {
    var l := Lower(name);
    var i := FirstBar(l);
    if i < |l| {
      assert l == l[..i] + "|" + l[i + 1..];
    }
  }

  /** An understood rule is the one whose text the string is. */
  lemma {:induction false} UnderstoodToken(t: Table, op: string, r: Rule)
    requires Parse(t, op) == Understood(Do(r))
    ensures Lower(op) == Token(r)
  {
    hide ParseAllow, ParseDeny, Lower;
    LowerSigned(op);
    if |op| > 1 && op[1] == '@' {
    } else if op[0] == '+' {
      AllowToken(t, op[1..], r);
    } else {
      DenyToken(t, op[1..], r);
    }
  }

  lemma LowerSigned(op: string)
    requires op != "" && (op[0] == '+' || op[0] == '-')
    ensures Lower(op) == [op[0]] + Lower(op[1..])
    ensures |op| > 1 && op[1] == '@' ==> Lower(op) == [op[0]] + ("@" + Lower(op[2..]))
  {
    LowerFirst(op);
    if |op| > 1 && op[1] == '@' {
      LowerFirst(op[1..]);
      assert op[1..][1..] == op[2..];
    }
  }

  lemma LowerFirst(s: string)
    requires s != ""
    ensures Lower(s) == [LowerChar(s[0])] + Lower(s[1..])
  {
    hide LowerChar;
    assert forall i :: 0 <= i < |s[1..]| ==> s[1..][i] == s[i + 1];
  }

  lemma DenyToken(t: Table, name: string, r: Rule)
    requires ParseDeny(t, name) == Understood(Do(r))
    ensures Lower(name) == Name(r) && !Allows(r) && !r.CategoryRule?
  {
    FoundName(t, name);
  }

  ghost predicate Ruled(t: Table, l: string, r: Rule) { Known(t, r) && l == Token(r) }

  /** A string is about commands exactly if it is one of four words or the text of a known rule. */
  lemma {:induction false} SpeaksOfRules(t: Table, op: string)
    requires GoodNames(t) && Unquoted(op)
    ensures Speaks(t, op) <==>
      Lower(op) in {"allcommands", "+@all", "nocommands", "-@all"} || exists r :: Ruled(t, Lower(op), r)
  {
    var l := Lower(op);
    forall r | Ruled(t, l, r) ensures Speaks(t, op) {
      RuleSpeaks(t, op, r);
    }
    forall c | c in t.commands && (l == "+" + c || l == "-" + c) ensures exists r :: Ruled(t, l, r) {
      assert Ruled(t, l, CommandRule(l == "+" + c, c));
    }
    forall c, s | IsSub(t, c, s) && (l == "+" + c + "|" + s || l == "-" + c + "|" + s)
      ensures exists r :: Ruled(t, l, r)
    {
      TextOfSub(c, s);
      assert Ruled(t, l, SubcommandRule(l == "+" + c + "|" + s, c, s));
    }
    forall c, a | TakesFirstArg(t, c) && IsFirstArg(a) && l == "+" + c + "|" + a ensures exists r :: Ruled(t, l, r) {
      FirstArgIsClean(op, c, a);
      TextOfSub(c, a);
      assert Ruled(t, l, FirstArgRule(c, a));
    }
    forall cat | cat in t.categories && (l == "+@" + cat || l == "-@" + cat) ensures exists r :: Ruled(t, l, r) {
      TextOfCategory(cat);
      assert Ruled(t, l, CategoryRule(l == "+@" + cat, cat));
    }
  }

  lemma TextOfSub(c: string, s: string)
    ensures "+" + c + "|" + s == "+" + (c + "|" + s) && "-" + c + "|" + s == "-" + (c + "|" + s)
    ensures "+" + c + "|" + s != "-" + c + "|" + s
  {
    assert ("+" + c + "|" + s)[0] == '+';
  }

  lemma TextOfCategory(cat: string)
    ensures "+@" + cat == "+" + ("@" + cat) && "-@" + cat == "-" + ("@" + cat) && "+@" + cat != "-@" + cat
  {
    assert ("+@" + cat)[0] == '+';
  }

  lemma FirstArgIsClean(op: string, c: string, a: string)
    requires Unquoted(op) && IsFirstArg(a) && Lower(op) == "+" + c + "|" + a
    ensures Clean(a)
  {
    var l, k := Lower(op), |c| + 2;
    forall i | 0 <= i < |a| ensures a[i] != '|' && IsOrdinary(a[i]) && !('A' <= a[i] <= 'Z') {
      assert a[i] == l[k + i] == LowerChar(op[k + i]);
      assert a[i] in a;
    }
  }

  lemma {:induction false} RuleSpeaks(t: Table, op: string, r: Rule)
    requires Ruled(t, Lower(op), r)
    ensures Speaks(t, op)
  {
    match r
    case CommandRule(allow, c) =>
    case SubcommandRule(allow, c, s) => TextOfSub(c, s); assert IsSub(t, c, s);
    case FirstArgRule(c, a) => TextOfSub(c, a); assert TakesFirstArg(t, c) && IsFirstArg(a);
    case CategoryRule(allow, cat) => TextOfCategory(cat);
  }

  /** Exactly the strings about commands are understood. */
  lemma {:induction false} UnderstoodIff(t: Table, op: string)
    requires GoodNames(t) && Unquoted(op)
    ensures Parse(t, op).Understood? <==> Speaks(t, op)
  {
    hide Parse, Speaks, GoodNames, Known, Token, Lower;
    SpeaksOfRules(t, op);
    FourWords(t, op);
    if exists r :: Ruled(t, Lower(op), r) {
      var r :| Ruled(t, Lower(op), r);
      ParseLower(t, op);
      TokenUnderstood(t, r);
    }
    if Parse(t, op).Understood? && Parse(t, op).op.Do? {
      ParseKnown(t, op);
      UnderstoodToken(t, op, Parse(t, op).op.rule);
      assert Ruled(t, Lower(op), Parse(t, op).op.rule);
    }
  }

  lemma FourWords(t: Table, op: string)
    ensures Lower(op) in {"allcommands", "+@all", "nocommands", "-@all"} <==>
      Parse(t, op) == Understood(AllCommands) || Parse(t, op) == Understood(NoCommands)
  {
    hide Lower, Lookup;
  }

  /** The one rule a string can be. */
  lemma {:induction false} RuleOf(t: Table, op: string, o: Op, r: Rule)
    requires GoodNames(t) && Parse(t, op) == Understood(o) && Ruled(t, Lower(op), r)
    ensures o == Do(r)
  {
    ParseLower(t, op);
    TokenUnderstood(t, r);
  }

  /** A step for an understood string does what the string means. */
  lemma {:induction false} ParsedMeans(t: Table, op: string, o: Op, s: State)
    requires GoodNames(t) && Unquoted(op) && Parse(t, op) == Understood(o) && KnownOp(t, o) && Bounded(s.perms)
    ensures Means(t, op, s.perms, Step(t, s, o).perms)
  {
    hide Parse, Step, AllSet, NoneSet, CommandSet, SubcommandSet, FirstArgSet, CategorySet, GoodNames;
    var l, p, q := Lower(op), s.perms, Step(t, s, o).perms;
    WordsMean(t, op, o);
    StepAll(t, s);
    forall c | c in t.commands
      ensures l == "+" + c ==> CommandSet(t.commands[c], true, p, q)
      ensures l == "-" + c ==> CommandSet(t.commands[c], false, p, q)
    {
      CommandMeans(t, op, o, s, c);
    }
    forall c, x | IsSub(t, c, x)
      ensures l == "+" + c + "|" + x ==> SubcommandSet(t.commands[c].subcommands.value[x].id, true, p, q)
      ensures l == "-" + c + "|" + x ==> SubcommandSet(t.commands[c].subcommands.value[x].id, false, p, q)
    {
      SubcommandMeans(t, op, o, s, c, x);
    }
    forall c, a | TakesFirstArg(t, c) && IsFirstArg(a) && l == "+" + c + "|" + a
      ensures FirstArgSet(t.commands[c].id, a, p, q)
    {
      FirstArgMeans(t, op, o, s, c, a);
    }
    forall cat | cat in t.categories
      ensures l == "+@" + cat ==> CategorySet(t, cat, true, p, q)
      ensures l == "-@" + cat ==> CategorySet(t, cat, false, p, q)
    {
      CategoryMeans(t, op, o, s, cat);
    }
  }

  lemma WordsMean(t: Table, op: string, o: Op)
    requires Parse(t, op) == Understood(o)
    ensures o == AllCommands <==> Lower(op) == "allcommands" || Lower(op) == "+@all"
    ensures o == NoCommands <==> Lower(op) == "nocommands" || Lower(op) == "-@all"
  {
    hide Lower, Lookup;
    assert "nocommands"[0] == 'n' && "allcommands"[0] == 'a' && "+@all"[0] == '+' && "-@all"[0] == '-';
  }

  lemma {:induction false} CommandMeans(t: Table, op: string, o: Op, s: State, c: string)
    requires GoodNames(t) && Parse(t, op) == Understood(o) && KnownOp(t, o) && Bounded(s.perms) && c in t.commands
    ensures Lower(op) == "+" + c ==> CommandSet(t.commands[c], true, s.perms, Step(t, s, o).perms)
    ensures Lower(op) == "-" + c ==> CommandSet(t.commands[c], false, s.perms, Step(t, s, o).perms)
  {
    hide Parse, Step, CommandSet, GoodNames;
    assert ("+" + c)[0] == '+' && ("-" + c)[0] == '-';
    if Lower(op) == "+" + c {
      RuleOf(t, op, o, CommandRule(true, c));
      StepCommand(t, s, true, c);
    } else if Lower(op) == "-" + c {
      RuleOf(t, op, o, CommandRule(false, c));
      StepCommand(t, s, false, c);
    }
  }

  lemma {:induction false} SubcommandMeans(t: Table, op: string, o: Op, s: State, c: string, x: string)
    requires GoodNames(t) && Parse(t, op) == Understood(o) && KnownOp(t, o) && Bounded(s.perms) && IsSub(t, c, x)
    ensures var id := t.commands[c].subcommands.value[x].id;
      && (Lower(op) == "+" + c + "|" + x ==> SubcommandSet(id, true, s.perms, Step(t, s, o).perms))
      && (Lower(op) == "-" + c + "|" + x ==> SubcommandSet(id, false, s.perms, Step(t, s, o).perms))
  {
    hide Parse, Step, SubcommandSet, GoodNames;
    TextOfSub(c, x);
    if Lower(op) == "+" + c + "|" + x {
      RuleOf(t, op, o, SubcommandRule(true, c, x));
      StepSubcommand(t, s, true, c, x);
    } else if Lower(op) == "-" + c + "|" + x {
      RuleOf(t, op, o, SubcommandRule(false, c, x));
      StepSubcommand(t, s, false, c, x);
    }
  }

  lemma {:induction false} FirstArgMeans(t: Table, op: string, o: Op, s: State, c: string, a: string)
    requires GoodNames(t) && Unquoted(op) && Parse(t, op) == Understood(o) && KnownOp(t, o) && Bounded(s.perms)
    requires TakesFirstArg(t, c) && IsFirstArg(a) && Lower(op) == "+" + c + "|" + a
    ensures FirstArgSet(t.commands[c].id, a, s.perms, Step(t, s, o).perms)
  {
    hide Parse, Step, FirstArgSet, GoodNames;
    TextOfSub(c, a);
    FirstArgIsClean(op, c, a);
    RuleOf(t, op, o, FirstArgRule(c, a));
    StepFirstArg(t, s, c, a);
  }

  lemma {:induction false} CategoryMeans(t: Table, op: string, o: Op, s: State, cat: string)
    requires GoodNames(t) && Parse(t, op) == Understood(o) && KnownOp(t, o) && Bounded(s.perms) && cat in t.categories
    ensures Lower(op) == "+@" + cat ==> CategorySet(t, cat, true, s.perms, Step(t, s, o).perms)
    ensures Lower(op) == "-@" + cat ==> CategorySet(t, cat, false, s.perms, Step(t, s, o).perms)
  {
    hide Parse, Step, CategorySet, GoodNames;
    TextOfCategory(cat);
    if Lower(op) == "+@" + cat {
      RuleOf(t, op, o, CategoryRule(true, cat));
      StepCategory(t, s, true, cat);
    } else if Lower(op) == "-@" + cat {
      RuleOf(t, op, o, CategoryRule(false, cat));
      StepCategory(t, s, false, cat);
    }
  }
}
