/** CREATE POLICY statements: their grammar and the defaults of their clauses. */
module RlsGrammar {
  import opened SemanticTables
  import opened SqlGrammar
  import opened SqlMeaning
  import opened SqlTokens
  import opened SqlParsers
  import opened RlsComposition

  // ----- the statement grammar -----

  datatype Part<T> = Missing | Part(value: T, next: nat)

  datatype Clause = Absent | Given(tree: Ors)

  datatype Statement = Statement(name: string, table: string, permissive: bool, command: PolicyCommand,
                                 roles: seq<Role>, using: Clause, check: Clause)

  function ReadMode(tokens: seq<Token>, p: nat): Part<bool> {
    if KindAt(tokens, p) != AsToken then Part(true, p)
    else if KindAt(tokens, p + 1) == PermissiveToken then Part(true, p + 2)
    else if KindAt(tokens, p + 1) == RestrictiveToken then Part(false, p + 2)
    else Missing
  }

  function ReadCommand(tokens: seq<Token>, p: nat): Part<PolicyCommand> {
    if KindAt(tokens, p) != ForToken then Part(AllCommands, p)
    else
      match KindAt(tokens, p + 1)
      case AllToken => Part(AllCommands, p + 2)
      case SelectToken => Part(SelectCommand, p + 2)
      case InsertToken => Part(InsertCommand, p + 2)
      case UpdateToken => Part(UpdateCommand, p + 2)
      case DeleteToken => Part(DeleteCommand, p + 2)
      case _ => Missing
  }

  /** Quoted names keep their case, others fold to lower case. */
  function Normalized(text: string): string {
    if |text| >= 2 && text[0] == '"' then Decoded(text) else Folded(PostgreSql, text)
  }

  predicate IsSessionRole(text: string) {
    text != "" && text[0] != '"' && Folded(PostgreSql, text) in ["current_role", "current_user", "session_user"]
  }

  function NameAt(source: string, tokens: seq<Token>, p: nat): Part<string> {
    if KindAt(tokens, p) == IdentifierToken && TokenOk(source, tokens[p]) then
      Part(Normalized(Text(source, tokens[p])), p + 1)
    else Missing
  }

  function RoleAt(source: string, tokens: seq<Token>, p: nat): Part<Role> {
    if KindAt(tokens, p) == PublicToken then Part(Role("public", true), p + 1)
    else
      match NameAt(source, tokens, p)
      case Missing => Missing
      case Part(name, next) => if IsSessionRole(Text(source, tokens[p])) then Missing else Part(Role(name, false), next)
  }

  function RolesFrom(source: string, tokens: seq<Token>, p: nat): Part<seq<Role>>
    decreases |tokens| - p
  {
    match RoleAt(source, tokens, p)
    case Missing => Missing
    case Part(role, next) =>
      if p >= |tokens| || KindAt(tokens, next) != CommaToken then Part([role], next)
      else match RolesFrom(source, tokens, next + 1)
      case Missing => Missing
      case Part(rest, end) => Part([role] + rest, end)
  }

  /** Without a list of roles a policy is for everyone. */
  function ReadRoles(source: string, tokens: seq<Token>, p: nat): Part<seq<Role>> {
    if KindAt(tokens, p) != ToToken then Part([Role("public", true)], p) else RolesFrom(source, tokens, p + 1)
  }

  function ReadBody(ws: seq<Word>, tokens: seq<Token>, p: nat): Part<Clause> {
    if KindAt(tokens, p) != LParenToken then Missing
    else
      match ParseOrs(ws, p + 1)
      case Fail => Missing
      case Got(tree, q) => if KindAt(tokens, q) == RParenToken then Part(Given(tree), q + 1) else Missing
  }

  function ReadUsing(ws: seq<Word>, tokens: seq<Token>, p: nat): Part<Clause> {
    if KindAt(tokens, p) != UsingToken then Part(Absent, p) else ReadBody(ws, tokens, p + 1)
  }

  function ReadCheck(ws: seq<Word>, tokens: seq<Token>, p: nat): Part<Clause> {
    if KindAt(tokens, p) != WithToken then Part(Absent, p)
    else if KindAt(tokens, p + 1) != CheckToken then Missing
    else ReadBody(ws, tokens, p + 2)
  }

  /** A policy for inserts has no USING, one for selects or deletes no WITH CHECK. */
  predicate ClausesAllowed(command: PolicyCommand, using: Clause, check: Clause) {
    && !(command == InsertCommand && using.Given?)
    && !((command == SelectCommand || command == DeleteCommand) && check.Given?)
  }

  function ReadEnd(tokens: seq<Token>, p: nat): Part<bool> {
    if KindAt(tokens, p) == SemicolonToken then Part(true, p + 1)
    else if KindAt(tokens, p) == EofToken then Part(false, p) else Missing
  }

  datatype Heading = Heading(name: string, table: string)

  function ReadHeading(source: string, tokens: seq<Token>, p: nat): Part<Heading> {
    if KindAt(tokens, p) != CreateToken || KindAt(tokens, p + 1) != PolicyToken then Missing
    else
      match NameAt(source, tokens, p + 2)
      case Missing => Missing
      case Part(name, _) =>
        if KindAt(tokens, p + 3) != OnToken then Missing
        else match NameAt(source, tokens, p + 4)
        case Missing => Missing
        case Part(table, next) => if KindAt(tokens, next) == DotToken then Missing else Part(Heading(name, table), next)
  }

  datatype Options = Options(permissive: bool, command: PolicyCommand, roles: seq<Role>)

  function ReadOptions(source: string, tokens: seq<Token>, p: nat): Part<Options> {
    match ReadMode(tokens, p)
    case Missing => Missing
    case Part(permissive, q) =>
      match ReadCommand(tokens, q)
      case Missing => Missing
      case Part(command, r) =>
        match ReadRoles(source, tokens, r)
        case Missing => Missing
        case Part(roles, s) => Part(Options(permissive, command, roles), s)
  }

  datatype Clauses = Clauses(using: Clause, check: Clause)

  function ReadClauses(ws: seq<Word>, tokens: seq<Token>, command: PolicyCommand, p: nat): Part<Clauses> {
    match ReadUsing(ws, tokens, p)
    case Missing => Missing
    case Part(using, q) =>
      match ReadCheck(ws, tokens, q)
      case Missing => Missing
      case Part(check, r) => if ClausesAllowed(command, using, check) then Part(Clauses(using, check), r) else Missing
  }

  /** A statement: its heading, its options and clauses in their order, and its end. */
  function ReadStatement(source: string, tokens: seq<Token>, ws: seq<Word>, p: nat): Part<Statement> {
    match ReadHeading(source, tokens, p)
    case Missing => Missing
    case Part(heading, q) =>
      match ReadOptions(source, tokens, q)
      case Missing => Missing
      case Part(options, r) =>
        match ReadClauses(ws, tokens, options.command, r)
        case Missing => Missing
        case Part(clauses, s) =>
          match ReadEnd(tokens, s)
          case Missing => Missing
          case Part(_, next) =>
            Part(Statement(heading.name, heading.table, options.permissive, options.command, options.roles,
                           clauses.using, clauses.check), next)
  }

  // ----- what the clauses are worth -----

  function TreeWorth(tree: Ors): Facts -> Tri {
    facts => OrsTruth(tree, facts)
  }

  function TrueWorth(): Facts -> Tri {
    facts => True
  }

  /** USING defaults to true, or for an insert to its check. */
  function UsingWorth(st: Statement): Facts -> Tri {
    if st.using.Given? then TreeWorth(st.using.tree)
    else if st.command == InsertCommand && st.check.Given? then TreeWorth(st.check.tree)
    else TrueWorth()
  }

  /** WITH CHECK defaults to USING. */
  function CheckWorth(st: Statement): Facts -> Tri {
    if st.check.Given? then TreeWorth(st.check.tree) else UsingWorth(st)
  }

  function WorthOf(st: Statement): Worth {
    Worth(UsingWorth(st), CheckWorth(st))
  }

  // ----- reading moves on -----

  lemma RolesAdvance(source: string, tokens: seq<Token>, p: nat)
    ensures RolesFrom(source, tokens, p).Part? ==> RolesFrom(source, tokens, p).next > p
    decreases |tokens| - p
  {
  }

  lemma OptionsAdvance(source: string, tokens: seq<Token>, p: nat)
    ensures ReadOptions(source, tokens, p).Part? ==> ReadOptions(source, tokens, p).next >= p
  {
    hide RolesFrom;
    var mode := ReadMode(tokens, p);
    if mode.Part? && ReadCommand(tokens, mode.next).Part? {
      RolesAdvance(source, tokens, ReadCommand(tokens, mode.next).next + 1);
    }
  }

  lemma ClausesAdvance(ws: seq<Word>, tokens: seq<Token>, command: PolicyCommand, p: nat)
    ensures ReadClauses(ws, tokens, command, p).Part? ==> ReadClauses(ws, tokens, command, p).next >= p
  {
    hide ParseOrs;
  }

  lemma HeadingAdvances(source: string, tokens: seq<Token>, p: nat)
    ensures ReadHeading(source, tokens, p).Part? ==> ReadHeading(source, tokens, p).next > p
  {
    NameNext(source, tokens, p + 4);
    hide NameAt;
  }

  lemma NameNext(source: string, tokens: seq<Token>, p: nat)
    ensures NameAt(source, tokens, p).Part? ==> NameAt(source, tokens, p).next == p + 1
  {
  }

  /** The first n statements of a source. */
  function ReadMany(source: string, tokens: seq<Token>, ws: seq<Word>, n: nat): Part<seq<Statement>> {
    if n == 0 then Part([], 0)
    else
      match ReadMany(source, tokens, ws, n - 1)
      case Missing => Missing
      case Part(list, p) =>
        match ReadStatement(source, tokens, ws, p)
        case Missing => Missing
        case Part(st, next) => Part(list + [st], next)
  }

  /** Statements read one after another from the first token. */
  ghost predicate StatementsRead(source: string, tokens: seq<Token>, ws: seq<Word>, statements: seq<Statement>,
                                 next: nat) {
    ReadMany(source, tokens, ws, |statements|) == Part(statements, next)
  }

  lemma StatementsSnoc(source: string, tokens: seq<Token>, ws: seq<Word>, statements: seq<Statement>, p: nat,
                       st: Statement, next: nat)
    requires StatementsRead(source, tokens, ws, statements, p) && ReadStatement(source, tokens, ws, p) == Part(st, next)
    ensures StatementsRead(source, tokens, ws, statements + [st], next)
  {
    hide ReadStatement;
  }

  lemma StatementAdvances(source: string, tokens: seq<Token>, ws: seq<Word>, p: nat)
    ensures ReadStatement(source, tokens, ws, p).Part? ==> ReadStatement(source, tokens, ws, p).next > p
  {
    hide ReadHeading, ReadOptions, ReadClauses;
    var heading := ReadHeading(source, tokens, p);
    HeadingAdvances(source, tokens, p);
    if heading.Part? {
      var options := ReadOptions(source, tokens, heading.next);
      OptionsAdvance(source, tokens, heading.next);
      if options.Part? {
        ClausesAdvance(ws, tokens, options.value.command, options.next);
      }
    }
  }
}
