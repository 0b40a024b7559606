/** The concrete syntax of CREATE POLICY statements, its print, and that reading inverts
    the print in both directions. */
module RlsSyntax {
  import opened Optional
  import opened SqlGrammar
  import opened SqlRoundTrip
  import opened SqlTokens
  import opened SqlParsers
  import opened RlsComposition
  import opened RlsGrammar

  /** A lexed source: its tokens and, for the expressions inside clauses, its words. */
  datatype View = View(source: string, tokens: seq<Token>, words: seq<Word>)

  /** Parentheses agree between tokens and words. */
  ghost predicate ViewOk(v: View) {
    forall p: nat :: KindAt(v.tokens, p) == RParenToken ==> WordAt(v.words, p) == CloseParen
  }

  /** Tokens and words agree on parentheses. */
  lemma ViewAgrees(source: string, tokens: seq<Token>, schema: Schema)
    requires TokensOk(source, tokens)
    ensures ViewOk(View(source, tokens, Words(source, tokens, schema)))
  {
    hide TokensOk, Words, WordAt, KindAt;
    forall p: nat
      ensures KindAt(tokens, p) == RParenToken ==> WordAt(Words(source, tokens, schema), p) == CloseParen
    {
      ParenDecides(source, tokens, schema, p);
    }
  }

  /** What the print puts at a position: a keyword or mark, a name, a role or a word of an
      expression. */
  datatype Slot = Mark(kind: TokenKind) | Named(name: string) | RoleNamed(name: string) | Spelt(word: Word)

  predicate Fills(v: View, p: nat, slot: Slot) {
    match slot
    case Mark(kind) => KindAt(v.tokens, p) == kind
    case Named(name) => NameAt(v.source, v.tokens, p) == Part(name, p + 1)
    case RoleNamed(name) => RoleAt(v.source, v.tokens, p) == Part(Role(name, false), p + 1)
    case Spelt(word) => p < |v.words| && v.words[p] == word
  }

  /** The source shows the print from a position on. */
  predicate Shows(v: View, p: nat, slots: seq<Slot>) {
    forall k :: 0 <= k < |slots| ==> Fills(v, p + k, slots[k])
  }

  lemma ShowsConcat(v: View, p: nat, a: seq<Slot>, b: seq<Slot>)
    ensures Shows(v, p, a + b) <==> Shows(v, p, a) && Shows(v, p + |a|, b)
  {
    hide Fills;
    var c := a + b;
    if Shows(v, p, c) {
      forall k | 0 <= k < |a|
        ensures Fills(v, p + k, a[k])
      {
        assert c[k] == a[k];
      }
      forall k | 0 <= k < |b|
        ensures Fills(v, p + |a| + k, b[k])
      {
        assert c[|a| + k] == b[k];
      }
    }
    if Shows(v, p, a) && Shows(v, p + |a|, b) {
      forall k | 0 <= k < |c|
        ensures Fills(v, p + k, c[k])
      {
        if k >= |a| {
          assert c[k] == b[k - |a|] && p + |a| + (k - |a|) == p + k;
        }
      }
    }
  }

  lemma ShowsNothing(v: View, p: nat)
    ensures Shows(v, p, [])
  {
  }

  lemma ShowsOne(v: View, p: nat, slot: Slot)
    ensures Shows(v, p, [slot]) <==> Fills(v, p, slot)
  {
    hide Fills;
    if Shows(v, p, [slot]) {
      assert Fills(v, p + 0, [slot][0]);
    }
  }

  lemma ShowsTwo(v: View, p: nat, a: Slot, b: Slot)
    ensures Shows(v, p, [a, b]) <==> Fills(v, p, a) && Fills(v, p + 1, b)
  {
    hide Fills;
    assert [a, b] == [a] + [b];
    ShowsConcat(v, p, [a], [b]);
    ShowsOne(v, p, a);
    ShowsOne(v, p + 1, b);
  }

  // ----- statements as they are written -----

  /** What may be left out is optional here; the defaults are not part of the syntax. */
  datatype Syntax = Syntax(
    name: string,
    table: string,
    mode: Option<bool>,
    command: Option<PolicyCommand>,
    roles: Option<seq<Role>>,
    using: Clause,
    check: Clause,
    semicolon: bool)

  function CommandOf(x: Syntax): PolicyCommand {
    if x.command.Some? then x.command.value else AllCommands
  }

  /** Roles are listed, public ones by their keyword, and the clauses suit the command. */
  predicate SyntaxOk(x: Syntax) {
    && (x.roles.Some? ==> x.roles.value != [] && forall k :: 0 <= k < |x.roles.value| ==> RoleOk(x.roles.value[k]))
    && ClausesSuit(x)
  }

  /** Nothing is there to filter for an insert, nor to check for a select or a delete. */
  predicate ClausesSuit(x: Syntax) {
    && (x.command == Some(InsertCommand) ==> x.using.Absent?)
    && (x.command == Some(SelectCommand) || x.command == Some(DeleteCommand) ==> x.check.Absent?)
  }

  predicate RoleOk(role: Role) {
    role.isPublic ==> role.name == "public"
  }

  /** The statement that a syntax stands for. */
  function Denoted(x: Syntax): Statement {
    Statement(x.name, x.table, x.mode != Some(false), CommandOf(x),
              if x.roles.Some? then x.roles.value else [Role("public", true)], x.using, x.check)
  }

  // ----- the print -----

  function PrintHeading(x: Syntax): seq<Slot> {
    [Mark(CreateToken), Mark(PolicyToken)] + [Named(x.name), Mark(OnToken)] + [Named(x.table)]
  }

  function PrintMode(mode: Option<bool>): seq<Slot> {
    if mode.None? then [] else [Mark(AsToken), Mark(if mode.value then PermissiveToken else RestrictiveToken)]
  }

  function CommandToken(command: PolicyCommand): TokenKind {
    match command
    case AllCommands => AllToken
    case SelectCommand => SelectToken
    case InsertCommand => InsertToken
    case UpdateCommand => UpdateToken
    case DeleteCommand => DeleteToken
  }

  function PrintCommand(command: Option<PolicyCommand>): seq<Slot> {
    if command.None? then [] else [Mark(ForToken), Mark(CommandToken(command.value))]
  }

  function RoleSlot(role: Role): Slot {
    if role.isPublic then Mark(PublicToken) else RoleNamed(role.name)
  }

  function PrintList(roles: seq<Role>): seq<Slot>
    requires roles != []
  {
    if |roles| == 1 then [RoleSlot(roles[0])] else [RoleSlot(roles[0]), Mark(CommaToken)] + PrintList(roles[1..])
  }

  function PrintRoles(roles: Option<seq<Role>>): seq<Slot> {
    if roles.None? || roles.value == [] then [] else [Mark(ToToken)] + PrintList(roles.value)
  }

  function PrintTree(tree: Ors): seq<Slot> {
    seq(|PrintOrs(tree)|, k requires 0 <= k < |PrintOrs(tree)| => Spelt(PrintOrs(tree)[k]))
  }

  function PrintBody(tree: Ors): seq<Slot> {
    [Mark(LParenToken)] + PrintTree(tree) + [Mark(RParenToken)]
  }

  function PrintUsing(clause: Clause): seq<Slot> {
    if clause.Absent? then [] else [Mark(UsingToken)] + PrintBody(clause.tree)
  }

  function PrintCheck(clause: Clause): seq<Slot> {
    if clause.Absent? then [] else [Mark(WithToken), Mark(CheckToken)] + PrintBody(clause.tree)
  }

  function PrintEnd(semicolon: bool): seq<Slot> {
    if semicolon then [Mark(SemicolonToken)] else []
  }

  function PrintOptions(x: Syntax): seq<Slot> {
    PrintMode(x.mode) + PrintCommand(x.command) + PrintRoles(x.roles)
  }

  function PrintClauses(x: Syntax): seq<Slot> {
    PrintUsing(x.using) + PrintCheck(x.check)
  }

  function Print(x: Syntax): seq<Slot> {
    PrintHeading(x) + PrintOptions(x) + PrintClauses(x) + PrintEnd(x.semicolon)
  }

  // ----- expressions -----

  lemma ShowsTree(v: View, p: nat, tree: Ors)
    ensures Shows(v, p, PrintTree(tree)) <==> At(v.words, p, PrintOrs(tree))
  {
    hide PrintOrs;
    var ws, slots := PrintOrs(tree), PrintTree(tree);
    if Shows(v, p, slots) {
      forall k | 0 <= k < |ws|
        ensures p + k < |v.words| && v.words[p + k] == ws[k]
      {
        assert Fills(v, p + k, slots[k]);
      }
      OrsWords(tree);
      assert Fills(v, p + (|ws| - 1), slots[|ws| - 1]);
      assert v.words[p..p + |ws|] == ws;
    }
    if At(v.words, p, ws) {
      forall k | 0 <= k < |slots|
        ensures Fills(v, p + k, slots[k])
      {
        assert v.words[p + k] == v.words[p..p + |ws|][k];
      }
    }
  }

  /** A parenthesised expression is read iff it is shown. */
  lemma BodyExactly(v: View, p: nat, tree: Ors)
    requires ViewOk(v)
    ensures ReadBody(v.words, v.tokens, p) == Part(Given(tree), p + |PrintBody(tree)|) <==> Shows(v, p, PrintBody(tree))
    ensures forall q :: ReadBody(v.words, v.tokens, p) == Part(Given(tree), q) ==> q == p + |PrintBody(tree)|
  {
    hide PrintOrs, ParseOrs, At;
    var text, end := PrintTree(tree), p + 1 + |PrintTree(tree)|;
    ShowsConcat(v, p, [Mark(LParenToken)] + text, [Mark(RParenToken)]);
    ShowsConcat(v, p, [Mark(LParenToken)], text);
    ShowsOne(v, p, Mark(LParenToken));
    ShowsOne(v, end, Mark(RParenToken));
    ShowsTree(v, p + 1, tree);
    if At(v.words, p + 1, PrintOrs(tree)) && KindAt(v.tokens, end) == RParenToken {
      assert WordAt(v.words, end) == CloseParen;
      OrsParse(v.words, p + 1, tree);
    }
    if ParseOrs(v.words, p + 1).Got? {
      OrsPrints(v.words, p + 1);
    }
  }

  // ----- the parts, from the print to the reading -----

  lemma HeadingReads(v: View, p: nat, x: Syntax)
    requires Shows(v, p, PrintHeading(x)) && KindAt(v.tokens, p + 5) != DotToken
    ensures ReadHeading(v.source, v.tokens, p) == Part(Heading(x.name, x.table), p + 5)
  {
    hide NameAt;
    ShowsConcat(v, p, [Mark(CreateToken), Mark(PolicyToken)] + [Named(x.name), Mark(OnToken)], [Named(x.table)]);
    ShowsConcat(v, p, [Mark(CreateToken), Mark(PolicyToken)], [Named(x.name), Mark(OnToken)]);
    ShowsTwo(v, p, Mark(CreateToken), Mark(PolicyToken));
    ShowsTwo(v, p + 2, Named(x.name), Mark(OnToken));
    ShowsOne(v, p + 4, Named(x.table));
  }

  lemma ModeReads(v: View, p: nat, mode: Option<bool>)
    requires Shows(v, p, PrintMode(mode)) && (mode.None? ==> KindAt(v.tokens, p) != AsToken)
    ensures ReadMode(v.tokens, p) == Part(mode != Some(false), p + |PrintMode(mode)|)
  {
    if mode.Some? {
      ShowsTwo(v, p, Mark(AsToken), Mark(if mode.value then PermissiveToken else RestrictiveToken));
    }
  }

  lemma CommandReads(v: View, p: nat, command: Option<PolicyCommand>)
    requires Shows(v, p, PrintCommand(command)) && (command.None? ==> KindAt(v.tokens, p) != ForToken)
    ensures ReadCommand(v.tokens, p) ==
            Part(if command.Some? then command.value else AllCommands, p + |PrintCommand(command)|)
  {
    if command.Some? {
      ShowsTwo(v, p, Mark(ForToken), Mark(CommandToken(command.value)));
    }
  }

  lemma RoleReads(v: View, p: nat, role: Role)
    requires Fills(v, p, RoleSlot(role)) && RoleOk(role)
    ensures RoleAt(v.source, v.tokens, p) == Part(role, p + 1) && p < |v.tokens|
  {
  }

  lemma {:induction false} ListReads(v: View, p: nat, roles: seq<Role>)
    requires roles != [] && (forall k :: 0 <= k < |roles| ==> RoleOk(roles[k]))
    requires Shows(v, p, PrintList(roles)) && KindAt(v.tokens, p + |PrintList(roles)|) != CommaToken
    ensures RolesFrom(v.source, v.tokens, p) == Part(roles, p + |PrintList(roles)|)
    decreases |roles|
  {
    hide RoleAt, RoleSlot;
    if |roles| == 1 {
      ShowsOne(v, p, RoleSlot(roles[0]));
      RoleReads(v, p, roles[0]);
      assert roles == [roles[0]];
    } else {
      ShowsConcat(v, p, [RoleSlot(roles[0]), Mark(CommaToken)], PrintList(roles[1..]));
      ShowsTwo(v, p, RoleSlot(roles[0]), Mark(CommaToken));
      RoleReads(v, p, roles[0]);
      ListReads(v, p + 2, roles[1..]);
      assert roles == [roles[0]] + roles[1..];
    }
  }

  lemma RolesRead(v: View, p: nat, roles: Option<seq<Role>>)
    requires roles.Some? ==> roles.value != [] && forall k :: 0 <= k < |roles.value| ==> RoleOk(roles.value[k])
    requires Shows(v, p, PrintRoles(roles)) && KindAt(v.tokens, p + |PrintRoles(roles)|) != CommaToken
    requires roles.None? ==> KindAt(v.tokens, p) != ToToken
    ensures ReadRoles(v.source, v.tokens, p) ==
            Part(if roles.Some? then roles.value else [Role("public", true)], p + |PrintRoles(roles)|)
  {
    hide RolesFrom, PrintList;
    if roles.Some? {
      ShowsConcat(v, p, [Mark(ToToken)], PrintList(roles.value));
      ShowsOne(v, p, Mark(ToToken));
      ListReads(v, p + 1, roles.value);
    }
  }

  lemma UsingReads(v: View, p: nat, clause: Clause)
    requires ViewOk(v) && Shows(v, p, PrintUsing(clause)) && (clause.Absent? ==> KindAt(v.tokens, p) != UsingToken)
    ensures ReadUsing(v.words, v.tokens, p) == Part(clause, p + |PrintUsing(clause)|)
  {
    hide ReadBody, PrintBody;
    if clause.Given? {
      ShowsConcat(v, p, [Mark(UsingToken)], PrintBody(clause.tree));
      ShowsOne(v, p, Mark(UsingToken));
      BodyExactly(v, p + 1, clause.tree);
    }
  }

  lemma CheckReads(v: View, p: nat, clause: Clause)
    requires ViewOk(v) && Shows(v, p, PrintCheck(clause)) && (clause.Absent? ==> KindAt(v.tokens, p) != WithToken)
    ensures ReadCheck(v.words, v.tokens, p) == Part(clause, p + |PrintCheck(clause)|)
  {
    hide ReadBody, PrintBody;
    if clause.Given? {
      ShowsConcat(v, p, [Mark(WithToken), Mark(CheckToken)], PrintBody(clause.tree));
      ShowsTwo(v, p, Mark(WithToken), Mark(CheckToken));
      BodyExactly(v, p + 2, clause.tree);
    }
  }

  // ----- what follows a part -----

  /** The kinds that can stand at the start of the n-th remaining part or after it. */
  predicate Follows(kind: TokenKind, part: nat) {
    || kind == EofToken || kind == SemicolonToken
    || (part <= 4 && kind == WithToken)
    || (part <= 3 && kind == UsingToken)
    || (part <= 2 && kind == ToToken)
    || (part <= 1 && kind == ForToken)
    || (part <= 0 && kind == AsToken)
  }

  /** Where a print begins: with its first slot, or with what follows it. */
  lemma BeginsWith(v: View, p: nat, slots: seq<Slot>, part: nat)
    requires Shows(v, p, slots) && Follows(KindAt(v.tokens, p + |slots|), part + 1)
    requires slots != [] ==> slots[0].Mark? && Follows(slots[0].kind, part)
    ensures Follows(KindAt(v.tokens, p), part)
  {
    if slots != [] {
      assert Fills(v, p + 0, slots[0]);
    }
  }

  // The positions behind the options and the clauses of a statement at p.

  function AfterMode(p: nat, x: Syntax): nat {
    p + |PrintMode(x.mode)|
  }

  function AfterCommand(p: nat, x: Syntax): nat {
    AfterMode(p, x) + |PrintCommand(x.command)|
  }

  function AfterOptions(p: nat, x: Syntax): nat {
    AfterCommand(p, x) + |PrintRoles(x.roles)|
  }

  function AfterUsing(q: nat, x: Syntax): nat {
    q + |PrintUsing(x.using)|
  }

  function AfterClauses(q: nat, x: Syntax): nat {
    AfterUsing(q, x) + |PrintCheck(x.check)|
  }

  predicate OptionsShown(v: View, p: nat, x: Syntax) {
    && Shows(v, p, PrintMode(x.mode)) && Shows(v, AfterMode(p, x), PrintCommand(x.command))
    && Shows(v, AfterCommand(p, x), PrintRoles(x.roles))
  }

  predicate ClausesShown(v: View, q: nat, x: Syntax) {
    && Shows(v, q, PrintUsing(x.using)) && Shows(v, AfterUsing(q, x), PrintCheck(x.check))
    && Shows(v, AfterClauses(q, x), PrintEnd(x.semicolon))
    && (!x.semicolon ==> KindAt(v.tokens, AfterClauses(q, x)) == EofToken)
  }

  lemma ClausesFollow(v: View, q: nat, x: Syntax)
    requires ClausesShown(v, q, x)
    ensures Follows(KindAt(v.tokens, q), 3) && Follows(KindAt(v.tokens, AfterUsing(q, x)), 4)
    ensures KindAt(v.tokens, AfterClauses(q, x)) == if x.semicolon then SemicolonToken else EofToken
  {
    hide Shows, PrintBody;
    if x.semicolon {
      ShowsOne(v, AfterClauses(q, x), Mark(SemicolonToken));
    }
    BeginsWith(v, AfterUsing(q, x), PrintCheck(x.check), 4);
    BeginsWith(v, q, PrintUsing(x.using), 3);
  }

  lemma OptionsFollow(v: View, p: nat, x: Syntax)
    requires OptionsShown(v, p, x) && Follows(KindAt(v.tokens, AfterOptions(p, x)), 3)
    ensures Follows(KindAt(v.tokens, p), 0) && Follows(KindAt(v.tokens, AfterMode(p, x)), 1)
    ensures Follows(KindAt(v.tokens, AfterCommand(p, x)), 2)
  {
    hide Shows, PrintList;
    BeginsWith(v, AfterCommand(p, x), PrintRoles(x.roles), 2);
    BeginsWith(v, AfterMode(p, x), PrintCommand(x.command), 1);
    BeginsWith(v, p, PrintMode(x.mode), 0);
  }

  lemma RolesAreOk(x: Syntax)
    requires SyntaxOk(x)
    ensures x.roles.Some? ==> x.roles.value != [] && forall k :: 0 <= k < |x.roles.value| ==> RoleOk(x.roles.value[k])
  {
  }

  /** An option that is left out is not begun. */
  lemma OptionKinds(v: View, p: nat, x: Syntax)
    requires OptionsShown(v, p, x) && Follows(KindAt(v.tokens, AfterOptions(p, x)), 3)
    ensures x.mode.None? ==> KindAt(v.tokens, p) != AsToken
    ensures x.command.None? ==> KindAt(v.tokens, AfterMode(p, x)) != ForToken
    ensures x.roles.None? ==> KindAt(v.tokens, AfterCommand(p, x)) != ToToken
    ensures KindAt(v.tokens, AfterOptions(p, x)) != CommaToken
  {
    hide Shows, PrintMode, PrintCommand, PrintRoles, KindAt;
    OptionsFollow(v, p, x);
    NothingPrinted(x);
  }

  lemma OptionPlaces(p: nat, x: Syntax)
    ensures AfterMode(p, x) == p + |PrintMode(x.mode)|
    ensures AfterCommand(p, x) == AfterMode(p, x) + |PrintCommand(x.command)|
  {
  }

  lemma OptionsRead(v: View, p: nat, x: Syntax)
    requires SyntaxOk(x) && OptionsShown(v, p, x) && Follows(KindAt(v.tokens, AfterOptions(p, x)), 3)
    ensures ReadOptions(v.source, v.tokens, p) ==
            Part(Options(Denoted(x).permissive, CommandOf(x), Denoted(x).roles), AfterOptions(p, x))
  {
    hide Shows, ReadMode, ReadCommand, ReadRoles, PrintMode, PrintCommand, PrintRoles, RoleOk, KindAt, SyntaxOk,
         Follows, AfterMode, AfterCommand;
    RolesAreOk(x);
    OptionKinds(v, p, x);
    OptionPlaces(p, x);
    ModeReads(v, p, x.mode);
    CommandReads(v, AfterMode(p, x), x.command);
    RolesRead(v, AfterCommand(p, x), x.roles);
  }

  lemma ClausesRead(v: View, q: nat, x: Syntax)
    requires ViewOk(v) && SyntaxOk(x) && ClausesShown(v, q, x)
    ensures ReadClauses(v.words, v.tokens, CommandOf(x), q) == Part(Clauses(x.using, x.check), AfterClauses(q, x))
    ensures ReadEnd(v.tokens, AfterClauses(q, x)) == Part(x.semicolon, AfterClauses(q, x) + |PrintEnd(x.semicolon)|)
  {
    hide Shows, ReadUsing, ReadCheck, PrintUsing, PrintCheck, ViewOk;
    ClausesFollow(v, q, x);
    NothingPrinted(x);
    UsingReads(v, q, x.using);
    CheckReads(v, AfterUsing(q, x), x.check);
  }

  /** A print is shown iff its parts are. */
  lemma PrintParts(v: View, p: nat, x: Syntax)
    ensures (Shows(v, p, Print(x)) && (!x.semicolon ==> KindAt(v.tokens, p + |Print(x)|) == EofToken)) <==>
            (Shows(v, p, PrintHeading(x)) && OptionsShown(v, p + 5, x) && ClausesShown(v, AfterOptions(p + 5, x), x))
    ensures p + |Print(x)| == AfterClauses(AfterOptions(p + 5, x), x) + |PrintEnd(x.semicolon)|
  {
    hide Shows, PrintHeading, PrintMode, PrintCommand, PrintRoles, PrintUsing, PrintCheck, PrintEnd;
    HeadingLength(x);
    var h, o, c, e := PrintHeading(x), PrintOptions(x), PrintClauses(x), PrintEnd(x.semicolon);
    ShowsConcat(v, p, h + o + c, e);
    ShowsConcat(v, p, h + o, c);
    ShowsConcat(v, p, h, o);
    ShowsConcat(v, p + 5, PrintMode(x.mode) + PrintCommand(x.command), PrintRoles(x.roles));
    ShowsConcat(v, p + 5, PrintMode(x.mode), PrintCommand(x.command));
    ShowsConcat(v, p + 5 + |o|, PrintUsing(x.using), PrintCheck(x.check));
    EndLength(x.semicolon);
  }

  lemma HeadingLength(x: Syntax)
    ensures |PrintHeading(x)| == 5
  {
  }

  lemma EndLength(semicolon: bool)
    ensures !semicolon ==> PrintEnd(semicolon) == []
  {
  }

  /** A shown statement is read as what it denotes. */
  lemma StatementReads(v: View, p: nat, x: Syntax)
    requires ViewOk(v) && SyntaxOk(x) && Shows(v, p, Print(x))
    requires !x.semicolon ==> KindAt(v.tokens, p + |Print(x)|) == EofToken
    ensures ReadStatement(v.source, v.tokens, v.words, p) == Part(Denoted(x), p + |Print(x)|)
  {
    hide Shows, ReadHeading, ReadOptions, ReadClauses, ReadEnd, PrintHeading, Print, ViewOk, OptionsShown, ClausesShown,
         AfterOptions,
         AfterClauses, PrintEnd;
    PrintParts(v, p, x);
    ClausesFollow(v, AfterOptions(p + 5, x), x);
    NotADot(v, p + 5, x);
    HeadingReads(v, p, x);
    OptionsRead(v, p + 5, x);
    ClausesRead(v, AfterOptions(p + 5, x), x);
  }

  lemma NotADot(v: View, p: nat, x: Syntax)
    requires OptionsShown(v, p, x) && Follows(KindAt(v.tokens, AfterOptions(p, x)), 3)
    ensures KindAt(v.tokens, p) != DotToken
  {
    hide OptionsShown, AfterOptions, AfterMode, AfterCommand;
    OptionsFollow(v, p, x);
  }

  lemma NothingPrinted(x: Syntax)
    ensures x.mode.None? ==> PrintMode(x.mode) == []
    ensures x.command.None? ==> PrintCommand(x.command) == []
    ensures x.roles.None? ==> PrintRoles(x.roles) == []
    ensures x.using.Absent? ==> PrintUsing(x.using) == []
    ensures x.check.Absent? ==> PrintCheck(x.check) == []
  {
  }

  // ----- from the reading to the print -----

  lemma HeadingShown(v: View, p: nat, x: Syntax)
    requires ReadHeading(v.source, v.tokens, p).Part?
    requires ReadHeading(v.source, v.tokens, p).value == Heading(x.name, x.table)
    ensures Shows(v, p, PrintHeading(x)) && ReadHeading(v.source, v.tokens, p).next == p + 5
  {
    hide Shows, ReadHeading, NameAt;
    HeadingParts(v, p, x);
    ShowsConcat(v, p, [Mark(CreateToken), Mark(PolicyToken)] + [Named(x.name), Mark(OnToken)], [Named(x.table)]);
    ShowsConcat(v, p, [Mark(CreateToken), Mark(PolicyToken)], [Named(x.name), Mark(OnToken)]);
    ShowsTwo(v, p, Mark(CreateToken), Mark(PolicyToken));
    ShowsTwo(v, p + 2, Named(x.name), Mark(OnToken));
    ShowsOne(v, p + 4, Named(x.table));
  }

  lemma HeadingParts(v: View, p: nat, x: Syntax)
    requires ReadHeading(v.source, v.tokens, p).Part?
    requires ReadHeading(v.source, v.tokens, p).value == Heading(x.name, x.table)
    ensures KindAt(v.tokens, p) == CreateToken && KindAt(v.tokens, p + 1) == PolicyToken
    ensures NameAt(v.source, v.tokens, p + 2) == Part(x.name, p + 3) && KindAt(v.tokens, p + 3) == OnToken
    ensures NameAt(v.source, v.tokens, p + 4) == Part(x.table, p + 5)
    ensures ReadHeading(v.source, v.tokens, p).next == p + 5
  {
    NameNext(v.source, v.tokens, p + 2);
    NameNext(v.source, v.tokens, p + 4);
    hide NameAt;
  }

  lemma ModeShown(v: View, p: nat) returns (mode: Option<bool>)
    requires ReadMode(v.tokens, p).Part?
    ensures Shows(v, p, PrintMode(mode)) && ReadMode(v.tokens, p) == Part(mode != Some(false), p + |PrintMode(mode)|)
  {
    if KindAt(v.tokens, p) != AsToken {
      mode := None;
    } else {
      mode := Some(KindAt(v.tokens, p + 1) == PermissiveToken);
      ShowsTwo(v, p, Mark(AsToken), Mark(if mode.value then PermissiveToken else RestrictiveToken));
    }
  }

  lemma CommandShown(v: View, p: nat) returns (command: Option<PolicyCommand>)
    requires ReadCommand(v.tokens, p).Part?
    ensures Shows(v, p, PrintCommand(command))
    ensures ReadCommand(v.tokens, p) ==
            Part(if command.Some? then command.value else AllCommands, p + |PrintCommand(command)|)
  {
    if KindAt(v.tokens, p) != ForToken {
      command := None;
    } else {
      command := Some(ReadCommand(v.tokens, p).value);
      ShowsTwo(v, p, Mark(ForToken), Mark(CommandToken(command.value)));
    }
  }

  lemma RoleShown(v: View, p: nat)
    requires RoleAt(v.source, v.tokens, p).Part?
    ensures var r := RoleAt(v.source, v.tokens, p); r.next == p + 1 && RoleOk(r.value) && Fills(v, p, RoleSlot(r.value))
  {
    NameNext(v.source, v.tokens, p);
    hide NameAt, IsSessionRole;
  }

  lemma {:induction false} ListShown(v: View, p: nat)
    requires RolesFrom(v.source, v.tokens, p).Part?
    ensures var r := RolesFrom(v.source, v.tokens, p);
            && r.value != [] && (forall k :: 0 <= k < |r.value| ==> RoleOk(r.value[k]))
            && Shows(v, p, PrintList(r.value)) && r.next == p + |PrintList(r.value)|
    decreases |v.tokens| - p
  {
    hide RoleAt, RoleSlot;
    RoleShown(v, p);
    var r, role := RolesFrom(v.source, v.tokens, p), RoleAt(v.source, v.tokens, p).value;
    if p >= |v.tokens| || KindAt(v.tokens, p + 1) != CommaToken {
      ShowsOne(v, p, RoleSlot(role));
    } else {
      ListShown(v, p + 2);
      var rest := RolesFrom(v.source, v.tokens, p + 2).value;
      assert r.value == [role] + rest && r.value[1..] == rest;
      ShowsTwo(v, p, RoleSlot(role), Mark(CommaToken));
      ShowsConcat(v, p, [RoleSlot(role), Mark(CommaToken)], PrintList(rest));
    }
  }

  lemma RolesShown(v: View, p: nat) returns (roles: Option<seq<Role>>)
    requires ReadRoles(v.source, v.tokens, p).Part?
    ensures roles.Some? ==> roles.value != [] && forall k :: 0 <= k < |roles.value| ==> RoleOk(roles.value[k])
    ensures Shows(v, p, PrintRoles(roles))
    ensures ReadRoles(v.source, v.tokens, p) ==
            Part(if roles.Some? then roles.value else [Role("public", true)], p + |PrintRoles(roles)|)
  {
    hide RolesFrom, PrintList;
    if KindAt(v.tokens, p) != ToToken {
      roles := None;
    } else {
      roles := Some(RolesFrom(v.source, v.tokens, p + 1).value);
      ListShown(v, p + 1);
      ShowsOne(v, p, Mark(ToToken));
      ShowsConcat(v, p, [Mark(ToToken)], PrintList(roles.value));
    }
  }

  lemma BodyGiven(ws: seq<Word>, tokens: seq<Token>, p: nat)
    requires ReadBody(ws, tokens, p).Part?
    ensures ReadBody(ws, tokens, p).value.Given?
  {
    hide ParseOrs;
  }

  lemma UsingShown(v: View, p: nat)
    requires ViewOk(v) && ReadUsing(v.words, v.tokens, p).Part?
    ensures var r := ReadUsing(v.words, v.tokens, p);
            Shows(v, p, PrintUsing(r.value)) && r.next == p + |PrintUsing(r.value)|
  {
    hide ReadBody, PrintBody;
    if KindAt(v.tokens, p) == UsingToken {
      BodyGiven(v.words, v.tokens, p + 1);
      var tree := ReadUsing(v.words, v.tokens, p).value.tree;
      BodyExactly(v, p + 1, tree);
      ShowsOne(v, p, Mark(UsingToken));
      ShowsConcat(v, p, [Mark(UsingToken)], PrintBody(tree));
    }
  }

  lemma CheckShown(v: View, p: nat)
    requires ViewOk(v) && ReadCheck(v.words, v.tokens, p).Part?
    ensures var r := ReadCheck(v.words, v.tokens, p);
            Shows(v, p, PrintCheck(r.value)) && r.next == p + |PrintCheck(r.value)|
  {
    hide ReadBody, PrintBody;
    if KindAt(v.tokens, p) == WithToken {
      BodyGiven(v.words, v.tokens, p + 2);
      var tree := ReadCheck(v.words, v.tokens, p).value.tree;
      BodyExactly(v, p + 2, tree);
      ShowsTwo(v, p, Mark(WithToken), Mark(CheckToken));
      ShowsConcat(v, p, [Mark(WithToken), Mark(CheckToken)], PrintBody(tree));
    }
  }

  /** The options that were read, as they are written. */
  lemma OptionsWritten(v: View, p: nat, x: Syntax) returns (y: Syntax)
    requires ReadOptions(v.source, v.tokens, p).Part?
    ensures y == x.(mode := y.mode, command := y.command, roles := y.roles) && OptionsShown(v, p, y)
    ensures y.roles.Some? ==> y.roles.value != [] && forall k :: 0 <= k < |y.roles.value| ==> RoleOk(y.roles.value[k])
    ensures ReadOptions(v.source, v.tokens, p) ==
            Part(Options(Denoted(y).permissive, CommandOf(y), Denoted(y).roles), AfterOptions(p, y))
  {
    hide Shows, ReadMode, ReadCommand, ReadRoles, PrintMode, PrintCommand, PrintRoles;
    var mode := ModeShown(v, p);
    var command := CommandShown(v, p + |PrintMode(mode)|);
    var roles := RolesShown(v, p + |PrintMode(mode)| + |PrintCommand(command)|);
    y := x.(mode := mode, command := command, roles := roles);
  }

  /** The clauses that were read, as they are written. */
  lemma ClausesWritten(v: View, q: nat, x: Syntax) returns (y: Syntax)
    requires ViewOk(v) && ReadClauses(v.words, v.tokens, CommandOf(x), q).Part?
    requires ReadEnd(v.tokens, ReadClauses(v.words, v.tokens, CommandOf(x), q).next).Part?
    ensures y == x.(using := y.using, check := y.check, semicolon := y.semicolon) && ClausesShown(v, q, y)
    ensures ReadClauses(v.words, v.tokens, CommandOf(x), q) == Part(Clauses(y.using, y.check), AfterClauses(q, y))
    ensures ReadEnd(v.tokens, AfterClauses(q, y)).next == AfterClauses(q, y) + |PrintEnd(y.semicolon)|
    ensures ClausesSuit(y)
  {
    hide Shows, ReadUsing, ReadCheck, PrintUsing, PrintCheck, ViewOk;
    UsingShown(v, q);
    var using := ReadUsing(v.words, v.tokens, q);
    CheckShown(v, using.next);
    var check := ReadCheck(v.words, v.tokens, using.next);
    y := x.(using := using.value, check := check.value, semicolon := KindAt(v.tokens, check.next) == SemicolonToken);
    if y.semicolon {
      ShowsOne(v, check.next, Mark(SemicolonToken));
    } else {
      ShowsNothing(v, check.next);
    }
  }

  /** Whatever is read as a statement is shown as some syntax that denotes it. */
  lemma StatementShown(v: View, p: nat) returns (x: Syntax)
    requires ViewOk(v) && ReadStatement(v.source, v.tokens, v.words, p).Part?
    ensures SyntaxOk(x) && Shows(v, p, Print(x)) && (!x.semicolon ==> KindAt(v.tokens, p + |Print(x)|) == EofToken)
    ensures ReadStatement(v.source, v.tokens, v.words, p) == Part(Denoted(x), p + |Print(x)|)
  {
    hide Shows, ReadHeading, ReadOptions, ReadClauses, ReadEnd, PrintHeading, Print, ViewOk, OptionsShown, ClausesShown,
         AfterOptions,
         AfterClauses, PrintEnd, ClausesSuit;
    var heading := ReadHeading(v.source, v.tokens, p).value;
    var start := Syntax(heading.name, heading.table, None, None, None, Absent, Absent, false);
    HeadingShown(v, p, start);
    var y := OptionsWritten(v, p + 5, start);
    x := ClausesWritten(v, AfterOptions(p + 5, y), y);
    HeadingShown(v, p, x);
    SameOptions(v, p + 5, y, x);
    PrintParts(v, p, x);
  }

  /** A statement is read iff it is shown. */
  lemma StatementExactly(v: View, p: nat, st: Statement, next: nat)
    requires ViewOk(v)
    ensures ReadStatement(v.source, v.tokens, v.words, p) == Part(st, next) <==>
            exists x :: IsStatement(v, p, x) && Denoted(x) == st && next == p + |Print(x)|
  {
    hide ReadStatement, Shows, Print, SyntaxOk, ViewOk, Denoted;
    if ReadStatement(v.source, v.tokens, v.words, p) == Part(st, next) {
      var x := StatementShown(v, p);
      assert IsStatement(v, p, x);
    }
    if x :| IsStatement(v, p, x) && Denoted(x) == st && next == p + |Print(x)| {
      StatementReads(v, p, x);
    }
  }

  /** A statement stands at a position: the source shows it, and it ends with a semicolon
      or with the source. */
  predicate IsStatement(v: View, p: nat, x: Syntax) {
    SyntaxOk(x) && Shows(v, p, Print(x)) && (!x.semicolon ==> KindAt(v.tokens, p + |Print(x)|) == EofToken)
  }

  lemma SameOptions(v: View, p: nat, x: Syntax, y: Syntax)
    requires x.mode == y.mode && x.command == y.command && x.roles == y.roles
    ensures AfterOptions(p, x) == AfterOptions(p, y) && (OptionsShown(v, p, x) <==> OptionsShown(v, p, y))
  {
    hide Shows, PrintMode, PrintCommand, PrintRoles;
  }
}
