/** The parser of CREATE POLICY statements. */
module RlsParsers {
  import opened SemanticTables
  import opened SemanticBuilders
  import opened SqlGrammar
  import opened SqlMeaning
  import opened SqlAcceptance
  import opened SqlTokens
  import opened SqlParsers
  import opened RlsComposition
  import opened RlsGrammar
  import opened RlsStatements

  method NormalizeIdentifier(token: string) returns (name: string)
    ensures name == Normalized(token)
  {
    if |token| >= 2 && token[0] == '"' {
      name := AppendDecodedQuote("", token);
      assert name == Decoded(token);
      return;
    }
    ghost var folded := Folded(PostgreSql, token);
    name := token;
    for row := 0 to |token|
      invariant |name| == |token| && (forall j :: 0 <= j < row ==>
                   name[j] == folded[j]) && forall j :: row <= j < |token| ==> name[j] == token[j]
    {
      if 'A' <= name[row] <= 'Z' {
        name := name[row := Lower(name[row])];
      }
    }
  }

  class RlsParser {
    const parser: Parser
    const maxPolicies: nat
    var table: string
    var names: seq<string>
    var policies: seq<Policy>
    var roleTotal: nat
    var stringBytes: nat

    constructor (parser: Parser, maxPolicies: nat)
      ensures this.parser == parser && this.maxPolicies == maxPolicies
      ensures table == "" && names == [] && policies == [] && roleTotal == 0 && stringBytes == 0
    {
      this.parser, this.maxPolicies := parser, maxPolicies;
      table, names, policies, roleTotal, stringBytes := "", [], [], 0, 0;
    }

    ghost function Here(): Context {
      Context(parser.source, parser.tokens, parser.Environment(), maxPolicies)
    }

    ghost function Now(): State
      reads this, parser, parser.builder
    {
      State(parser.position, table, names, policies, roleTotal, stringBytes, parser.builder.nodes)
    }

    method Fail()
      requires parser.Valid()
      modifies parser`failed
      ensures parser.Valid() && parser.failed
    {
      hide TokensOk, Positionals, Builder.Valid;
      parser.failed := true;
    }

    method Expect(kind: TokenKind)
      requires parser.Valid() && !parser.failed && kind != EofToken && kind != ParameterToken
      modifies parser`failed, parser`position
      ensures parser.Valid()
      ensures !parser.failed ==>
                KindAt(parser.tokens, old(parser.position)) == kind && parser.position == old(parser.position) + 1
      ensures parser.failed ==> KindAt(parser.tokens, old(parser.position)) != kind
    {
      hide TokensOk, Positionals, Builder.Valid;
      if parser.Current() != kind {
        Fail();
        return;
      }
      parser.Skip();
    }

    method ParseName() returns (name: string)
      requires parser.Valid() && !parser.failed
      modifies parser`failed, parser`position
      ensures parser.Valid()
      ensures !parser.failed ==>
                NameAt(parser.source, parser.tokens, old(parser.position)) == Part(name, parser.position)
      ensures parser.failed ==> NameAt(parser.source, parser.tokens, old(parser.position)).Missing?
    {
      hide TokensOk, Positionals, Builder.Valid, Normalized;
      name := "";
      if parser.Current() != IdentifierToken {
        Fail();
        return;
      }
      TokenReadable(parser.source, parser.tokens, parser.position);
      name := NormalizeIdentifier(Text(parser.source, parser.tokens[parser.position]));
      parser.Skip();
    }

    method ParseHeading() returns (heading: Heading)
      requires parser.Valid() && !parser.failed
      modifies parser`failed, parser`position
      ensures parser.Valid()
      ensures !parser.failed ==>
                ReadHeading(parser.source, parser.tokens, old(parser.position)) == Part(heading, parser.position)
      ensures parser.failed ==> ReadHeading(parser.source, parser.tokens, old(parser.position)).Missing?
    {
      hide TokensOk, Positionals, Builder.Valid, Parser.Valid, NameAt;
      heading := Heading("", "");
      var name := ParseCreate();
      if parser.failed { return; }
      var table := ParseOn();
      if parser.failed { return; }
      heading := Heading(name, table);
    }

    /** CREATE POLICY and the name. */
    method ParseCreate() returns (name: string)
      requires parser.Valid() && !parser.failed
      modifies parser`failed, parser`position
      ensures parser.Valid()
      ensures var p := old(parser.position);
              var shown := && KindAt(parser.tokens, p) == CreateToken && KindAt(parser.tokens, p + 1) == PolicyToken
                           && NameAt(parser.source, parser.tokens, p + 2).Part?;
              && (!parser.failed <==> shown)
              && (shown ==> NameAt(parser.source, parser.tokens, p + 2).value == name && parser.position == p + 3)
    {
      hide TokensOk, Positionals, Builder.Valid, Parser.Valid, NameAt;
      ghost var p := parser.position;
      name := "";
      Expect(CreateToken);
      if parser.failed { return; }
      Expect(PolicyToken);
      if parser.failed { return; }
      NameNext(parser.source, parser.tokens, p + 2);
      name := ParseName();
    }

    /** ON and the table, without a qualifier. */
    method ParseOn() returns (table: string)
      requires parser.Valid() && !parser.failed
      modifies parser`failed, parser`position
      ensures parser.Valid()
      ensures var p := old(parser.position);
              var shown := && KindAt(parser.tokens, p) == OnToken && NameAt(parser.source, parser.tokens, p + 1).Part?
                           && KindAt(parser.tokens, NameAt(parser.source, parser.tokens, p + 1).next) != DotToken;
              && (!parser.failed <==> shown)
              && (shown ==> NameAt(parser.source, parser.tokens, p + 1) == Part(table, parser.position))
    {
      hide TokensOk, Positionals, Builder.Valid, Parser.Valid, NameAt;
      table := "";
      Expect(OnToken);
      if parser.failed { return; }
      table := ParseName();
      if parser.failed { return; }
      if parser.Current() == DotToken {
        Fail();
      }
    }

    method ParseMode() returns (permissive: bool)
      requires parser.Valid() && !parser.failed
      modifies parser`failed, parser`position
      ensures parser.Valid()
      ensures !parser.failed ==> ReadMode(parser.tokens, old(parser.position)) == Part(permissive, parser.position)
      ensures parser.failed ==> ReadMode(parser.tokens, old(parser.position)).Missing?
    {
      hide TokensOk, Positionals, Builder.Valid;
      permissive := true;
      if parser.Current() == AsToken {
        parser.Skip();
        if parser.Current() == RestrictiveToken {
          permissive := false;
        } else if parser.Current() != PermissiveToken {
          Fail();
          return;
        }
        parser.Skip();
      }
    }

    method ParseCommand() returns (command: PolicyCommand)
      requires parser.Valid() && !parser.failed
      modifies parser`failed, parser`position
      ensures parser.Valid()
      ensures !parser.failed ==> ReadCommand(parser.tokens, old(parser.position)) == Part(command, parser.position)
      ensures parser.failed ==> ReadCommand(parser.tokens, old(parser.position)).Missing?
    {
      hide TokensOk, Positionals, Builder.Valid;
      command := AllCommands;
      if parser.Current() == ForToken {
        parser.Skip();
        match parser.Current() {
          case AllToken => command := AllCommands;
          case SelectToken => command := SelectCommand;
          case InsertToken => command := InsertCommand;
          case UpdateToken => command := UpdateCommand;
          case DeleteToken => command := DeleteCommand;
          case _ =>
            Fail();
            return;
        }
        parser.Skip();
      }
    }

    method ParseRole() returns (role: Role)
      requires parser.Valid() && !parser.failed
      modifies parser`failed, parser`position
      ensures parser.Valid()
      ensures !parser.failed ==>
                && RoleAt(parser.source, parser.tokens, old(parser.position)) == Part(role, parser.position)
                && old(parser.position) < parser.position
      ensures parser.failed ==> RoleAt(parser.source, parser.tokens, old(parser.position)).Missing?
    {
      hide TokensOk, Positionals, Builder.Valid, Normalized, IsSessionRole;
      role := Role("public", true);
      if parser.Current() == PublicToken {
        parser.Skip();
        return;
      }
      if parser.Current() == IdentifierToken {
        TokenReadable(parser.source, parser.tokens, parser.position);
        if IsSessionRole(Text(parser.source, parser.tokens[parser.position])) {
          Fail();
          return;
        }
      }
      var name := ParseName();
      role := Role(name, false);
    }

    method ParseRoles() returns (roles: seq<Role>)
      requires parser.Valid() && !parser.failed
      modifies parser`failed, parser`position
      ensures parser.Valid()
      ensures !parser.failed ==>
                ReadRoles(parser.source, parser.tokens, old(parser.position)) == Part(roles, parser.position)
      ensures parser.failed ==> ReadRoles(parser.source, parser.tokens, old(parser.position)).Missing?
    {
      hide TokensOk, Positionals, Builder.Valid, RoleAt, RolesFrom;
      if parser.Current() != ToToken {
        return [Role("public", true)];
      }
      parser.Skip();
      ghost var start := parser.position;
      roles := [];
      RolesBegin(parser.source, parser.tokens, start);
      while true
        invariant parser.Valid() && !parser.failed && start <= parser.position
        invariant RolesPending(parser.source, parser.tokens, start, roles, parser.position)
        decreases |parser.tokens| - parser.position
      {
        ghost var p := parser.position;
        var role := ParseRole();
        if parser.failed {
          RolesStuck(parser.source, parser.tokens, start, roles, p);
          return;
        }
        RolesStep(parser.source, parser.tokens, start, roles, p);
        roles := roles + [role];
        if parser.Current() != CommaToken {
          return;
        }
        parser.Skip();
      }
    }

    method ParseOptions() returns (options: Options)
      requires parser.Valid() && !parser.failed
      modifies parser`failed, parser`position
      ensures parser.Valid()
      ensures !parser.failed ==>
                ReadOptions(parser.source, parser.tokens, old(parser.position)) == Part(options, parser.position)
      ensures parser.failed ==> ReadOptions(parser.source, parser.tokens, old(parser.position)).Missing?
    {
      hide Parser.Valid, ReadMode, ReadCommand, ReadRoles;
      options := Options(true, AllCommands, []);
      var permissive := ParseMode();
      if parser.failed { return; }
      var command := ParseCommand();
      if parser.failed { return; }
      var roles := ParseRoles();
      options := Options(permissive, command, roles);
    }

    method HasName(name: string) returns (found: bool)
      ensures found <==> name in names
    {
      for row := 0 to |names|
        invariant name !in names[..row]
      {
        if names[row] == name {
          return true;
        }
        assert names[..row + 1] == names[..row] + [names[row]];
      }
      assert names[..|names|] == names;
      found := false;
    }

    /** An expression in parentheses. */
    method ParseBody() returns (root: nat)
      requires parser.Valid() && !parser.failed && parser.nesting == 0
      modifies parser, parser.builder
      ensures parser.Valid() && (!parser.failed ==> parser.nesting == 0)
      ensures ClauseResult(parser.Environment(),
                           ReadBody(parser.Environment().words, parser.tokens, old(parser.position)),
                           old(parser.builder.nodes),
                           Outcome(!parser.failed, parser.position, Emitted(parser.builder.nodes, root)))
    {
      hide TokensOk, Positionals, Builder.Valid, Words, OrsResult, ClauseResult, ReadBody;
      ghost var env, p, nodes := parser.Environment(), parser.position, parser.builder.nodes;
      root := 0;
      BodyRefused(env, parser.tokens, p, nodes);
      if parser.Current() != LParenToken {
        Fail();
        ClauseFails(env, ReadBody(env.words, parser.tokens, p), nodes,
                    Outcome(false, parser.position, Emitted(nodes, root)));
        return;
      }
      parser.Skip();
      parser.nesting := 1;
      if parser.nesting > parser.builder.limits.maxDepth {
        Fail();
        ClauseFails(env, ReadBody(env.words, parser.tokens, p), nodes,
                    Outcome(false, parser.position, Emitted(nodes, root)));
        return;
      }
      root := parser.ParseOr();
      root := CloseBody(p, nodes, root);
    }

    method CloseBody(ghost p: nat, ghost nodes: seq<Node>, id: nat) returns (root: nat)
      requires parser.Valid() && KindAt(parser.tokens, p) == LParenToken && 1 <= parser.builder.limits.maxDepth
      requires (!parser.failed ==> parser.nesting == 1)
      requires OrsResult(parser.Environment(), p + 1, 1, nodes,
                         Outcome(!parser.failed, parser.position, Emitted(parser.builder.nodes, id)))
      modifies parser
      ensures parser.Valid() && (!parser.failed ==> parser.nesting == 0)
      ensures ClauseResult(parser.Environment(), ReadBody(parser.Environment().words, parser.tokens, p), nodes,
                           Outcome(!parser.failed, parser.position, Emitted(parser.builder.nodes, root)))
    {
      hide TokensOk, Positionals, Builder.Valid, Words, OrsResult, ClauseResult, ReadBody;
      ghost var env, out := parser.Environment(),
                            Outcome(!parser.failed, parser.position, Emitted(parser.builder.nodes, id));
      BodyCloses(env, parser.tokens, p, nodes, out);
      root := id;
      if parser.failed || parser.Current() != RParenToken {
        Fail();
        ClauseFails(env, ReadBody(env.words, parser.tokens, p), nodes,
                    Outcome(false, parser.position, Emitted(parser.builder.nodes, root)));
        return;
      }
      parser.nesting := 0;
      parser.Skip();
    }

    method ParseUsing() returns (root: nat)
      requires parser.Valid() && !parser.failed && parser.nesting == 0
      modifies parser, parser.builder
      ensures parser.Valid() && (!parser.failed ==> parser.nesting == 0)
      ensures ClauseResult(parser.Environment(),
                           ReadUsing(parser.Environment().words, parser.tokens, old(parser.position)),
                           old(parser.builder.nodes),
                           Outcome(!parser.failed, parser.position, Emitted(parser.builder.nodes, root)))
    {
      hide TokensOk, Positionals, Builder.Valid, Words, ReadBody, ClauseResult;
      root := 0;
      if parser.Current() == UsingToken {
        parser.Skip();
        root := ParseBody();
      } else {
        parser.BuilderFits();
        NoClause(parser.Environment(), parser.position, parser.builder.nodes);
      }
    }

    method ParseCheck() returns (root: nat)
      requires parser.Valid() && !parser.failed && parser.nesting == 0
      modifies parser, parser.builder
      ensures parser.Valid() && (!parser.failed ==> parser.nesting == 0)
      ensures ClauseResult(parser.Environment(),
                           ReadCheck(parser.Environment().words, parser.tokens, old(parser.position)),
                           old(parser.builder.nodes),
                           Outcome(!parser.failed, parser.position, Emitted(parser.builder.nodes, root)))
    {
      hide TokensOk, Positionals, Builder.Valid, Words, ReadBody, ClauseResult;
      ghost var env, p, nodes := parser.Environment(), parser.position, parser.builder.nodes;
      root := 0;
      if parser.Current() == WithToken {
        parser.Skip();
        Expect(CheckToken);
        if parser.failed {
          ClauseFails(env, ReadCheck(env.words, parser.tokens, p), nodes,
                      Outcome(false, parser.position, Emitted(nodes, root)));
          return;
        }
        root := ParseBody();
      } else {
        parser.BuilderFits();
        NoClause(env, parser.position, nodes);
      }
    }

    /** Both clauses; a clause that the command does not take is refused. */
    method ParseClauses(command: PolicyCommand) returns (using: nat, check: nat)
      requires parser.Valid() && !parser.failed && parser.nesting == 0
      modifies parser, parser.builder
      ensures parser.Valid() && (!parser.failed ==> parser.nesting == 0)
      ensures ClausesResult(parser.Environment(),
                            ReadClauses(parser.Environment().words, parser.tokens, command, old(parser.position)),
                            old(parser.builder.nodes),
                            !parser.failed, parser.position, parser.builder.nodes, using, check)
    {
      hide Builder.Valid, Words, ReadUsing, ReadCheck, ClauseResult, ClausesResult, Positionals, TokensOk;
      ghost var env, p, nodes := parser.Environment(), parser.position, parser.builder.nodes;
      check := 0;
      using := ParseUsing();
      ghost var first := Outcome(!parser.failed, parser.position, Emitted(parser.builder.nodes, using));
      if parser.failed {
        UsingFails(env, parser.tokens, command, p, nodes, first, parser.position, parser.builder.nodes, check);
        return;
      }
      check := ParseCheck();
      ghost var second := Outcome(!parser.failed, parser.position, Emitted(parser.builder.nodes, check));
      var refused := (command == InsertCommand && using != 0) ||
                     ((command == SelectCommand || command == DeleteCommand) && check != 0);
      BothClauses(env, parser.tokens, command, p, nodes, first, second);
      if parser.failed || refused {
        Fail();
      }
    }

    /** Fill in the clauses that were left out. */
    method DefaultClauses(command: PolicyCommand, using: nat, check: nat) returns (usingRoot: nat, checkRoot: nat)
      requires parser.Valid() && !parser.failed
      modifies parser`failed, parser.builder
      ensures parser.Valid()
      ensures parser.failed <==>
              !FitsIn(parser.Environment(), Defaults(command, old(parser.builder.nodes), using, check).nodes)
      ensures !parser.failed ==>
                Filled(parser.builder.nodes, usingRoot, checkRoot) ==
                Defaults(command, old(parser.builder.nodes), using, check)
    {
      hide Builder.Valid, Positionals, TokensOk, Admits, FitsIn, Words;
      parser.BuilderFits();
      usingRoot, checkRoot := using, check;
      if usingRoot == 0 {
        if command == InsertCommand && check != 0 {
          usingRoot := check;
        } else {
          AdmitsFits(parser.Environment(), parser.builder.nodes, Boolean(true));
          var ok;
          ok, usingRoot := parser.builder.AddBoolean(true);
          if !ok {
            Fail();
            return;
          }
        }
      }
      if checkRoot == 0 {
        checkRoot := usingRoot;
      }
    }

    /** The heading, if it names a new policy of the same table, and the options. */
    method ReadFront() returns (heading: Heading, options: Options)
      requires parser.Valid() && !parser.failed
      modifies this`table, parser`failed, parser`position
      ensures parser.Valid()
      ensures !parser.failed <==> FrontOk(Here(), old(Now()))
      ensures !parser.failed ==> ReadHeading(parser.source, parser.tokens, old(parser.position)).Part?
      ensures !parser.failed ==> var q := ReadHeading(parser.source, parser.tokens, old(parser.position));
                                 && heading == q.value
                                 && ReadOptions(parser.source, parser.tokens, q.next) == Part(options, parser.position)
      ensures !parser.failed ==> table == if old(table) == "" then heading.table else old(table)
    {
      hide Builder.Valid, Words, Positionals, TokensOk, ReadHeading, ReadOptions;
      options := Options(true, AllCommands, []);
      heading := ParseHeading();
      if parser.failed { return; }
      var duplicate := HasName(heading.name);
      if duplicate || (table != "" && table != heading.table) {
        Fail();
        return;
      }
      if table == "" {
        table := heading.table;
      }
      options := ParseOptions();
      if parser.failed { return; }
      if |options.roles| == 0 || |options.roles| > MAX_UINT16 ||
         roleTotal + |options.roles| > parser.builder.limits.maxChildren {
        Fail();
      }
    }

    /** A semicolon or the end of the source. */
    method ParseEnd()
      requires parser.Valid() && !parser.failed
      modifies parser`failed, parser`position
      ensures parser.Valid()
      ensures !parser.failed ==> ReadEnd(parser.tokens, old(parser.position)).Part?
      ensures !parser.failed ==> parser.position == ReadEnd(parser.tokens, old(parser.position)).next
      ensures parser.failed ==> ReadEnd(parser.tokens, old(parser.position)).Missing?
    {
      hide Builder.Valid, Words, Positionals, TokensOk;
      if parser.Current() == SemicolonToken {
        parser.Skip();
      } else if parser.Current() != EofToken {
        Fail();
      }
    }

    /** Parse one statement and collect its policy. */
    method ParseStatement()
      requires parser.Valid() && !parser.failed && parser.nesting == 0
      modifies this, parser, parser.builder
      ensures parser.Valid() && (!parser.failed ==> parser.nesting == 0)
      ensures !parser.failed <==> StepOk(Here(), old(Now()))
      ensures !parser.failed ==> Now() == NextState(Here(), old(Now()))
    {
      hide Builder.Valid, Words, Positionals, TokensOk, FrontOk, ReadHeading, ReadOptions, ReadClauses, ReadEnd,
           ClausesResult, ClausesOk, StepOk, NextState, Defaults, FitsIn, After;
      ghost var cx, s := Here(), Now();
      var heading, options := ReadFront();
      if parser.failed {
        FrontRefuses(cx, s);
        return;
      }
      ghost var q := ReadHeading(cx.source, cx.tokens, s.position).next;
      ghost var p := parser.position;
      var using, check := ParseClauses(options.command);
      ghost var clauses := ReadClauses(cx.env.words, cx.tokens, options.command, p);
      if parser.failed {
        ClausesRefuse(cx, s, p, parser.position, parser.builder.nodes, using, check);
        return;
      }
      ghost var after := parser.builder.nodes;
      ClausesNext(cx.env, clauses, s.nodes, parser.position, after, using, check);
      ghost var r := parser.position;
      ParseEnd();
      if parser.failed {
        EndRefuses(cx, s, p, r);
        return;
      }
      ghost var st := Statement(heading.name, heading.table, options.permissive, options.command, options.roles,
                                clauses.value.using, clauses.value.check);
      StatementRead(cx, s, p, r, st, parser.position);
      FinishStatement(cx, s, heading, options, using, check, st);
    }

    /** Fill in the defaults and append the policy. */
    method FinishStatement(ghost cx: Context, ghost s: State, heading: Heading, options: Options, using: nat,
                           check: nat, ghost st: Statement)
      requires parser.Valid() && !parser.failed && parser.nesting == 0 && cx == Here()
      requires s == State(s.position, s.table, names, policies, roleTotal, stringBytes, s.nodes)
      requires table == TableAfter(s, st)
      requires ReadStatement(cx.source, cx.tokens, cx.env.words, s.position) == Part(st, parser.position)
      requires Admissible(cx, s, st)
      requires st.name == heading.name && st.permissive == options.permissive && st.command == options.command
      requires st.roles == options.roles
      requires parser.builder.nodes == ClauseNodes(st, s.nodes) && using == EmitClause(st.using, s.nodes).id
      requires check == EmitClause(st.check, EmitClause(st.using, s.nodes).nodes).id
      modifies this, parser`failed, parser.builder
      ensures parser.Valid() && (!parser.failed ==> parser.nesting == 0)
      ensures !parser.failed <==> StepOk(cx, s)
      ensures !parser.failed ==> Now() == NextState(cx, s)
    {
      hide Builder.Valid, Words, Positionals, TokensOk, ReadStatement, EmitClause, FitsIn, RoleBytes, Admissible;
      StepUnfolds(cx, s, st, parser.position);
      var usingRoot, checkRoot := DefaultClauses(options.command, using, check);
      if parser.failed { return; }
      if |policies| + 1 > maxPolicies {
        Fail();
        return;
      }
      names := names + [heading.name];
      policies := policies + [Policy(options.permissive, options.command, options.roles, usingRoot, checkRoot)];
      roleTotal := roleTotal + |options.roles|;
      stringBytes := stringBytes + |heading.name| + RoleBytes(options.roles);
      if |table| + stringBytes > parser.builder.limits.maxStringBytes {
        Fail();
      }
    }
  }

  // ----- how a statement ends -----

  /** A new policy of the same table with a bounded list of roles. */
  ghost predicate FrontOk(cx: Context, s: State) {
    var heading := ReadHeading(cx.source, cx.tokens, s.position);
    && heading.Part? && heading.value.name !in s.names && (s.table == "" || s.table == heading.value.table)
    && var options := ReadOptions(cx.source, cx.tokens, heading.next);
    && options.Part? && 0 < |options.value.roles| <= MAX_UINT16
    && s.roleTotal + |options.value.roles| <= cx.env.limits.maxChildren
  }

  ghost predicate StepOk(cx: Context, s: State) {
    var r := ReadStatement(cx.source, cx.tokens, cx.env.words, s.position);
    r.Part? && Takes(cx, s, r.value)
  }

  ghost function NextState(cx: Context, s: State): State {
    var r := ReadStatement(cx.source, cx.tokens, cx.env.words, s.position);
    if r.Part? then After(s, r.value, r.next) else s
  }

  /** What of a statement is known before its defaults are filled in. */
  ghost predicate Admissible(cx: Context, s: State, st: Statement) {
    && st.name !in s.names && (s.table == "" || s.table == st.table)
    && 0 < |st.roles| <= MAX_UINT16 && s.roleTotal + |st.roles| <= cx.env.limits.maxChildren
    && ClauseFine(cx.env, st.using) && ClauseFine(cx.env, st.check)
  }

  function ClauseNodes(st: Statement, nodes: seq<Node>): seq<Node> {
    EmitClause(st.check, EmitClause(st.using, nodes).nodes).nodes
  }

  lemma FrontRefuses(cx: Context, s: State)
    requires !FrontOk(cx, s)
    ensures !StepOk(cx, s)
  {
    hide ReadHeading, ReadOptions, ReadClauses, ReadEnd, ClauseFine, EmitStatement, FitsIn, RoleBytes;
  }

  lemma ClausesRefuse(cx: Context, s: State, p: nat, next: nat, after: seq<Node>, using: nat, check: nat)
    requires FrontOk(cx, s)
    requires ReadOptions(cx.source, cx.tokens, ReadHeading(cx.source, cx.tokens, s.position).next).next == p
    requires var options := ReadOptions(cx.source, cx.tokens, ReadHeading(cx.source, cx.tokens, s.position).next).value;
             ClausesResult(cx.env, ReadClauses(cx.env.words, cx.tokens, options.command, p), s.nodes, false, next,
                           after, using, check)
    ensures !StepOk(cx, s)
  {
    hide ReadHeading, ReadOptions, ReadClauses, ReadEnd, ClauseFine, EmitStatement, FitsIn, RoleBytes, EmitClause;
    if StepOk(cx, s) {
      var st := ReadStatement(cx.source, cx.tokens, cx.env.words, s.position).value;
      StatementGrows(st, s.nodes);
      FitsBack(cx.env, ClauseNodes(st, s.nodes), EmitStatement(st, s.nodes).nodes);
    }
  }

  lemma ClausesNext(env: Env, r: Part<Clauses>, nodes: seq<Node>, next: nat, after: seq<Node>, using: nat, check: nat)
    requires ClausesResult(env, r, nodes, true, next, after, using, check)
    ensures r.Part? && next == r.next && ClauseFine(env, r.value.using) && ClauseFine(env, r.value.check)
    ensures using == EmitClause(r.value.using, nodes).id
    ensures var b := EmitClause(r.value.check, EmitClause(r.value.using, nodes).nodes);
            after == b.nodes && check == b.id
  {
    hide ClauseFine, EmitClause, FitsIn;
  }

  lemma EndRefuses(cx: Context, s: State, p: nat, r: nat)
    requires FrontOk(cx, s)
    requires ReadOptions(cx.source, cx.tokens, ReadHeading(cx.source, cx.tokens, s.position).next).next == p
    requires var options := ReadOptions(cx.source, cx.tokens, ReadHeading(cx.source, cx.tokens, s.position).next).value;
             var clauses := ReadClauses(cx.env.words, cx.tokens, options.command, p);
             clauses.Part? && clauses.next == r && ReadEnd(cx.tokens, r).Missing?
    ensures !StepOk(cx, s)
  {
    hide ReadHeading, ReadOptions, ReadClauses, ReadEnd, Takes;
  }

  lemma StatementRead(cx: Context, s: State, p: nat, r: nat, st: Statement, next: nat)
    requires FrontOk(cx, s)
    requires ReadOptions(cx.source, cx.tokens, ReadHeading(cx.source, cx.tokens, s.position).next).next == p
    requires var heading := ReadHeading(cx.source, cx.tokens, s.position);
             var options := ReadOptions(cx.source, cx.tokens, heading.next).value;
             var clauses := ReadClauses(cx.env.words, cx.tokens, options.command, p);
             && clauses.Part? && clauses.next == r && ReadEnd(cx.tokens, r).Part? && ReadEnd(cx.tokens, r).next == next
             && st == Statement(heading.value.name, heading.value.table, options.permissive, options.command,
                                options.roles, clauses.value.using, clauses.value.check)
             && ClauseFine(cx.env, st.using) && ClauseFine(cx.env, st.check)
    ensures ReadStatement(cx.source, cx.tokens, cx.env.words, s.position) == Part(st, next) && Admissible(cx, s, st)
  {
    hide ReadHeading, ReadOptions, ReadClauses, ReadEnd, ClauseFine;
  }

  lemma StepUnfolds(cx: Context, s: State, st: Statement, next: nat)
    requires ReadStatement(cx.source, cx.tokens, cx.env.words, s.position) == Part(st, next) && Admissible(cx, s, st)
    ensures EmitStatement(st, s.nodes) ==
            Defaults(st.command, ClauseNodes(st, s.nodes), EmitClause(st.using, s.nodes).id,
                     EmitClause(st.check, EmitClause(st.using, s.nodes).nodes).id)
    ensures StepOk(cx, s) <==>
              && FitsIn(cx.env, EmitStatement(st, s.nodes).nodes) && |s.policies| + 1 <= cx.maxPolicies
              && |TableAfter(s, st)| + s.stringBytes + |st.name| + RoleBytes(st.roles) <= cx.env.limits.maxStringBytes
    ensures NextState(cx, s) == After(s, st, next)
  {
    hide ReadStatement, ClauseFine, EmitClause, FitsIn, RoleBytes, Defaults;
  }

  // ----- how clauses end -----

  /** A clause was read and lowered, or could not be. */
  ghost predicate ClauseResult(env: Env, r: Part<Clause>, nodes: seq<Node>, out: Outcome) {
    && (out.ok <==> r.Part? && ClauseFine(env, r.value) && FitsIn(env, EmitClause(r.value, nodes).nodes))
    && (out.ok ==> out.next == r.next && out.e == EmitClause(r.value, nodes))
  }

  ghost predicate ClauseRefused(env: Env, r: Part<Clause>, nodes: seq<Node>) {
    !(r.Part? && ClauseFine(env, r.value) && FitsIn(env, EmitClause(r.value, nodes).nodes))
  }

  lemma ClauseFails(env: Env, r: Part<Clause>, nodes: seq<Node>, out: Outcome)
    requires ClauseRefused(env, r, nodes) && !out.ok
    ensures ClauseResult(env, r, nodes, out)
  {
  }

  lemma NoClause(env: Env, p: nat, nodes: seq<Node>)
    requires FitsIn(env, nodes)
    ensures ClauseResult(env, Part(Absent, p), nodes, Outcome(true, p, Emitted(nodes, 0)))
  {
  }

  lemma BodyRefused(env: Env, tokens: seq<Token>, p: nat, nodes: seq<Node>)
    ensures KindAt(tokens, p) != LParenToken || 1 > env.limits.maxDepth ==>
              ClauseRefused(env, ReadBody(env.words, tokens, p), nodes)
  {
    hide ParseOrs, OrsTyped, OrsNested, EmitOrs, FitsIn;
  }

  lemma BodyCloses(env: Env, tokens: seq<Token>, p: nat, nodes: seq<Node>, out: Outcome)
    requires KindAt(tokens, p) == LParenToken && 1 <= env.limits.maxDepth && OrsResult(env, p + 1, 1, nodes, out)
    ensures var r := ReadBody(env.words, tokens, p);
            if out.ok && KindAt(tokens, out.next) == RParenToken then
              ClauseResult(env, r, nodes, Outcome(true, out.next + 1, out.e))
            else ClauseRefused(env, r, nodes)
  {
    hide ParseOrs, OrsTyped, OrsNested, EmitOrs, FitsIn;
  }

  /** Both clauses were read and lowered, or could not be. */
  ghost predicate ClausesResult(env: Env, r: Part<Clauses>, nodes: seq<Node>, ok: bool, next: nat, after: seq<Node>,
                                using: nat, check: nat) {
    && (ok <==> ClausesOk(env, r, nodes))
    && (ok ==>
          var a := EmitClause(r.value.using, nodes);
          var b := EmitClause(r.value.check, a.nodes);
          next == r.next && after == b.nodes && using == a.id && check == b.id)
  }

  ghost predicate ClausesOk(env: Env, r: Part<Clauses>, nodes: seq<Node>) {
    && r.Part? && ClauseFine(env, r.value.using) && ClauseFine(env, r.value.check)
    && FitsIn(env, EmitClause(r.value.check, EmitClause(r.value.using, nodes).nodes).nodes)
  }

  lemma UsingFails(env: Env, tokens: seq<Token>, command: PolicyCommand, p: nat, nodes: seq<Node>, first: Outcome,
                   next: nat, after: seq<Node>, check: nat)
    requires ClauseResult(env, ReadUsing(env.words, tokens, p), nodes, first) && !first.ok
    ensures ClausesResult(env, ReadClauses(env.words, tokens, command, p), nodes, false, next, after, first.e.id, check)
  {
    hide ReadUsing, ReadCheck, ClauseFine, EmitClause, FitsIn;
    var r := ReadClauses(env.words, tokens, command, p);
    if r.Part? {
      var a := EmitClause(r.value.using, nodes);
      ClauseGrows(r.value.check, a.nodes);
      if FitsIn(env, EmitClause(r.value.check, a.nodes).nodes) {
        FitsBack(env, a.nodes, EmitClause(r.value.check, a.nodes).nodes);
      }
    }
  }

  lemma BothClauses(env: Env, tokens: seq<Token>, command: PolicyCommand, p: nat, nodes: seq<Node>, first: Outcome,
                    second: Outcome)
    requires ClauseResult(env, ReadUsing(env.words, tokens, p), nodes, first) && first.ok
    requires ClauseResult(env, ReadCheck(env.words, tokens, first.next), first.e.nodes, second)
    ensures var refused := (command == InsertCommand && first.e.id != 0) ||
                           ((command == SelectCommand || command == DeleteCommand) && second.e.id != 0);
            var r := ReadClauses(env.words, tokens, command, p);
            && (second.ok && !refused ==>
                 ClausesResult(env, r, nodes, true, second.next, second.e.nodes, first.e.id, second.e.id))
            && (!second.ok || refused ==>
                 forall next, after, check :: ClausesResult(env, r, nodes, false, next, after, first.e.id, check))
  {
    hide ReadUsing, ReadCheck, ClauseFine, EmitClause, FitsIn;
    var using := ReadUsing(env.words, tokens, p);
    ClauseGrows(using.value, nodes);
    var check := ReadCheck(env.words, tokens, first.next);
    if check.Part? {
      ClauseGrows(check.value, first.e.nodes);
    }
  }

  /** The list from `start` is what has been read and what p on reads as. */
  ghost predicate RolesPending(source: string, tokens: seq<Token>, start: nat, roles: seq<Role>, p: nat) {
    var r := RolesFrom(source, tokens, p);
    RolesFrom(source, tokens, start) == if r.Missing? then Missing else Part(roles + r.value, r.next)
  }

  lemma RolesBegin(source: string, tokens: seq<Token>, start: nat)
    ensures RolesPending(source, tokens, start, [], start)
  {
    var r := RolesFrom(source, tokens, start);
    if r.Part? {
      assert [] + r.value == r.value;
    }
  }

  lemma RolesStep(source: string, tokens: seq<Token>, start: nat, roles: seq<Role>, p: nat)
    requires RolesPending(source, tokens, start, roles, p) && RoleAt(source, tokens, p).Part? && p < |tokens|
    ensures var r := RoleAt(source, tokens, p);
            if KindAt(tokens, r.next) == CommaToken then
              RolesPending(source, tokens, start, roles + [r.value], r.next + 1)
            else RolesFrom(source, tokens, start) == Part(roles + [r.value], r.next)
  {
    hide RoleAt;
    var r := RoleAt(source, tokens, p);
    if KindAt(tokens, r.next) == CommaToken && RolesFrom(source, tokens, r.next + 1).Part? {
      var rest := RolesFrom(source, tokens, r.next + 1).value;
      assert roles + ([r.value] + rest) == (roles + [r.value]) + rest;
    }
  }

  lemma RolesStuck(source: string, tokens: seq<Token>, start: nat, roles: seq<Role>, p: nat)
    requires RolesPending(source, tokens, start, roles, p) && RoleAt(source, tokens, p).Missing?
    ensures RolesFrom(source, tokens, start).Missing?
  {
  }
}
