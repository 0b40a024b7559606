/** The constant stage of lowering: field names and literals are interned into
    dense canonical symbol and value spaces. */
module Constants {
  import opened Documents
  import opened Programs
  import opened OpenAddress

  type Bytes = seq<nat>

  const MAX_INT32: nat := 0x7FFF_FFFF

  datatype Status = Done | InvalidDocument | InvalidSymbols | TooLarge | InvalidProgram

  /** A canonical value: symbols are compared by their canonical identifier. */
  datatype ValueKey =
    | SymbolKey(id: nat)
    | IntegerKey(integer: int)
    | BooleanKey(boolean: bool)
    | TimestampKey(timestamp: int)

  predicate KeyOk(key: ValueKey, symbols: seq<Bytes>) {
    key.SymbolKey? ==> 1 <= key.id <= |symbols|
  }

  function Spelled(key: ValueKey, symbols: seq<Bytes>): Literal
    requires KeyOk(key, symbols)
  {
    match key
    case SymbolKey(id) => Symbol(symbols[id - 1])
    case IntegerKey(i) => Integer(i)
    case BooleanKey(b) => Bool(b)
    case TimestampKey(t) => Timestamp(t)
  }

  /** Over distinct symbols, canonical keys are equal exactly when they spell the
      same literal. */
  lemma KeysSpellDistinctly(a: ValueKey, b: ValueKey, symbols: seq<Bytes>)
    requires KeyOk(a, symbols) && KeyOk(b, symbols) && Distinct(symbols)
    ensures a == b <==> Spelled(a, symbols) == Spelled(b, symbols)
  {
  }

  ghost predicate KeysOk(values: seq<ValueKey>, symbols: seq<Bytes>) {
    forall i :: 0 <= i < |values| ==> KeyOk(values[i], symbols)
  }

  ghost function SpelledAll(values: seq<ValueKey>, symbols: seq<Bytes>): seq<Literal>
    requires KeysOk(values, symbols)
  {
    seq(|values|, i requires 0 <= i < |values| => Spelled(values[i], symbols))
  }

  function TotalBytes(symbols: seq<Bytes>): nat {
    if symbols == [] then 0 else TotalBytes(symbols[..|symbols| - 1]) + |symbols[|symbols| - 1]|
  }

  class ConstantStage {
    const hashBytes: Bytes -> nat
    const hashLiteral: Literal -> nat
    var symbolSlots: seq<nat>
    var symbols: seq<Bytes>
    var valueSlots: seq<nat>
    var values: seq<ValueKey>

    constructor (hashBytes: Bytes -> nat, hashLiteral: Literal -> nat, names: nat, literals: nat)
      ensures Valid() && symbols == [] && values == []
      ensures |symbolSlots| >= 2 * (names + literals) && |symbolSlots| >= 4 && |valueSlots| >= 2 * literals
      ensures |valueSlots| >= 4
      ensures this.hashBytes == hashBytes && this.hashLiteral == hashLiteral
    {
      var symbolSize := SlotSize(names + literals);
      var valueSize := SlotSize(literals);
      this.hashBytes, this.hashLiteral := hashBytes, hashLiteral;
      symbolSlots, valueSlots := seq(symbolSize, _ => 0), seq(valueSize, _ => 0);
      symbols, values := [], [];
      new;
      EmptyTable(symbolSlots);
      EmptyTable(valueSlots);
    }

    ghost predicate Valid()
      reads this
    {
      && PoolOk(symbolSlots, symbols, hashBytes)
      && KeysOk(values, symbols)
      && PoolOk(valueSlots, SpelledAll(values, symbols), hashLiteral)
      && TotalBytes(symbols) <= MAX_UINT32
    }

    /** Intern symbol bytes; an equal symbol keeps its identifier. */
    method InternSymbol(bytes: Bytes) returns (status: Status, id: nat)
      requires Valid() && |symbols| < |symbolSlots|
      modifies this`symbolSlots, this`symbols
      ensures Valid() && |symbolSlots| == old(|symbolSlots|)
      ensures status == Done <==>
                bytes in old(symbols) ||
                (old(|symbols|) < MAX_UINT32 && TotalBytes(old(symbols)) + |bytes| <= MAX_UINT32)
      ensures status == Done ==> 1 <= id <= |symbols| && symbols[id - 1] == bytes
      ensures symbols == if status != Done || bytes in old(symbols) then old(symbols) else old(symbols) + [bytes]
      ensures status == Done || status == TooLarge
    {
      hide TableOk, SeatedAt;
      var home := hashBytes(bytes) % |symbolSlots|;
      var probe := Lookup(symbolSlots, symbols, bytes, home, Homes(symbols, hashBytes, |symbolSlots|));
      match probe
      case Full => status, id := TooLarge, id;
      case Found(found) => return Done, found;
      case Vacant(slot) =>
        if |symbols| >= MAX_UINT32 || TotalBytes(symbols) + |bytes| > MAX_UINT32 {
          return TooLarge, 0;
        }
        AddKeeps(symbolSlots, symbols, hashBytes, bytes, slot);
        SymbolsGrow(values, symbols, bytes);
        symbolSlots := symbolSlots[slot := |symbols| + 1];
        symbols := symbols + [bytes];
        return Done, |symbols|;
    }

    /** Intern a canonical key. */
    method InternValue(key: ValueKey) returns (status: Status, id: nat)
      requires Valid() && KeyOk(key, symbols) && |values| < |valueSlots|
      modifies this`valueSlots, this`values
      ensures Valid() && |valueSlots| == old(|valueSlots|)
      ensures status == Done <==> key in old(values) || old(|values|) < MAX_UINT32
      ensures status == Done ==> 1 <= id <= |values| && values[id - 1] == key
      ensures values == if status != Done || key in old(values) then old(values) else old(values) + [key]
      ensures status == Done || status == TooLarge
    {
      hide TableOk, SeatedAt;
      var literal := Spelled(key, symbols);
      var home := hashLiteral(literal) % |valueSlots|;
      ghost var spelled := SpelledAll(values, symbols);
      KeyHomes(values, symbols, key);
      var probe := Lookup(valueSlots, values, key, home, Homes(spelled, hashLiteral, |valueSlots|));
      match probe
      case Full => status, id := TooLarge, id;
      case Found(found) => return Done, found;
      case Vacant(slot) =>
        if |values| >= MAX_UINT32 {
          return TooLarge, 0;
        }
        AddKeeps(valueSlots, spelled, hashLiteral, literal, slot);
        assert SpelledAll(values + [key], symbols) == spelled + [literal];
        valueSlots := valueSlots[slot := |values| + 1];
        values := values + [key];
        return Done, |values|;
    }
  }

  lemma SymbolsGrow(values: seq<ValueKey>, symbols: seq<Bytes>, bytes: Bytes)
    requires KeysOk(values, symbols)
    ensures KeysOk(values, symbols + [bytes]) && SpelledAll(values, symbols + [bytes]) == SpelledAll(values, symbols)
    ensures TotalBytes(symbols + [bytes]) == TotalBytes(symbols) + |bytes|
  {
    assert (symbols + [bytes])[..|symbols|] == symbols;
  }

  lemma KeyHomes(values: seq<ValueKey>, symbols: seq<Bytes>, key: ValueKey)
    requires KeysOk(values, symbols) && KeyOk(key, symbols)
    requires Distinct(symbols)
    ensures key in values <==> Spelled(key, symbols) in SpelledAll(values, symbols)
  {
    forall i | 0 <= i < |values|
      ensures values[i] == key <==> SpelledAll(values, symbols)[i] == Spelled(key, symbols)
    {
      KeysSpellDistinctly(values[i], key, symbols);
    }
  }

  datatype Canonical = Canonical(
    symbols: seq<Bytes>,
    values: seq<ValueKey>,
    fieldNames: seq<nat>,
    valueRemap: seq<nat>,
    symbolRemap: seq<nat>)

  /** Literal i was given the canonical value `value`, and a symbol literal the
      canonical symbol `symbol`. */
  ghost predicate Remaps(symbols: seq<Bytes>, values: seq<ValueKey>, literal: Literal, value: nat, symbol: nat) {
    && 1 <= value <= |values|
    && KeyOk(values[value - 1], symbols)
    && Spelled(values[value - 1], symbols) == literal
    && (literal.Symbol? ==> values[value - 1] == SymbolKey(symbol))
  }

  ghost predicate Names(symbols: seq<Bytes>, name: Bytes, symbol: nat) {
    1 <= symbol <= |symbols| && symbols[symbol - 1] == name
  }

  ghost predicate CanonicalOk(c: Canonical, names: seq<Bytes>, literals: seq<Literal>) {
    && Distinct(c.symbols) && Distinct(c.values) && KeysOk(c.values, c.symbols)
    && |c.fieldNames| == |names| && |c.valueRemap| == |c.symbolRemap| == |literals|
    && (forall i :: 0 <= i < |names| ==> Names(c.symbols, names[i], c.fieldNames[i]))
    && (forall i :: 0 <= i < |literals| ==> Remaps(c.symbols, c.values, literals[i], c.valueRemap[i], c.symbolRemap[i]))
  }

  /** Two literals share a canonical value exactly when they are equal in kind
      and payload, whatever the hash functions. */
  lemma SharedExactly(c: Canonical, names: seq<Bytes>, literals: seq<Literal>, i: nat, j: nat)
    requires CanonicalOk(c, names, literals) && i < |literals| && j < |literals|
    ensures c.valueRemap[i] == c.valueRemap[j] <==> literals[i] == literals[j]
  {
    assert Remaps(c.symbols, c.values, literals[i], c.valueRemap[i], c.symbolRemap[i]);
    assert Remaps(c.symbols, c.values, literals[j], c.valueRemap[j], c.symbolRemap[j]);
    KeysSpellDistinctly(c.values[c.valueRemap[i] - 1], c.values[c.valueRemap[j] - 1], c.symbols);
  }

  /** The bytes of the symbols that a run may intern. */
  function SymbolBytes(literals: seq<Literal>): nat {
    if literals == [] then 0
    else SymbolBytes(literals[..|literals| - 1]) +
         match literals[|literals| - 1] case Symbol(b) => |b| case _ => 0
  }

  /** Sizes under which the constant stage never gives up. */
  predicate ConstantsFit(names: seq<Bytes>, literals: seq<Literal>) {
    && |names| + |literals| <= MAX_INT32 / 4
    && TotalBytes(names) + SymbolBytes(literals) <= MAX_UINT32
    && forall i :: 0 <= i < |names| ==> |names[i]| > 0
  }

  lemma RemapsSurvive(symbols: seq<Bytes>, symbols': seq<Bytes>, values: seq<ValueKey>, values': seq<ValueKey>,
                      literal: Literal, value: nat, symbol: nat)
    requires Remaps(symbols, values, literal, value, symbol) && symbols <= symbols' && values <= values'
    ensures Remaps(symbols', values', literal, value, symbol)
  {
    assert values'[value - 1] == values[value - 1];
  }

  ghost predicate RemappedTo(symbols: seq<Bytes>, values: seq<ValueKey>, literals: seq<Literal>,
                             valueRemap: seq<nat>, symbolRemap: seq<nat>, n: nat) {
    && |valueRemap| == |symbolRemap| == n <= |literals|
    && forall i :: 0 <= i < n ==> Remaps(symbols, values, literals[i], valueRemap[i], symbolRemap[i])
  }

  lemma RemappedSurvives(symbols: seq<Bytes>, symbols': seq<Bytes>, values: seq<ValueKey>, values': seq<ValueKey>,
                         literals: seq<Literal>, valueRemap: seq<nat>, symbolRemap: seq<nat>, n: nat)
    requires RemappedTo(symbols, values, literals, valueRemap, symbolRemap, n) && symbols <= symbols'
    requires values <= values'
    ensures RemappedTo(symbols', values', literals, valueRemap, symbolRemap, n)
  {
    forall i | 0 <= i < n
      ensures Remaps(symbols', values', literals[i], valueRemap[i], symbolRemap[i])
    {
      RemapsSurvive(symbols, symbols', values, values', literals[i], valueRemap[i], symbolRemap[i]);
    }
  }

  ghost predicate NamedTo(symbols: seq<Bytes>, names: seq<Bytes>, fieldNames: seq<nat>, n: nat) {
    |fieldNames| == n <= |names| && forall i :: 0 <= i < n ==> Names(symbols, names[i], fieldNames[i])
  }

  /** Intern the field names in FieldID order. A field without a name is refused. */
  method LowerFieldNames(stage: ConstantStage, names: seq<Bytes>) returns (status: Status, fieldNames: seq<nat>)
    requires stage.Valid() && stage.symbols == [] && |names| <= |stage.symbolSlots| && |names| < MAX_UINT32
    modifies stage`symbols, stage`symbolSlots
    ensures stage.Valid() && |stage.symbolSlots| == old(|stage.symbolSlots|)
    ensures status == Done ==> NamedTo(stage.symbols, names, fieldNames, |names|)
    ensures status == Done ==> |stage.symbols| <= |names| && TotalBytes(stage.symbols) <= TotalBytes(names)
    ensures (forall i :: 0 <= i < |names| ==> |names[i]| > 0) && TotalBytes(names) <= MAX_UINT32 ==> status == Done
    ensures status == Done ==> forall i :: 0 <= i < |names| ==> |names[i]| > 0
  {
    hide ConstantStage.Valid, TotalBytes;
    TotalEmpty();
    fieldNames := [];
    assert names[..0] == [] && names[..|names|] == names;
    for i := 0 to |names|
      invariant stage.Valid() && |stage.symbolSlots| == old(|stage.symbolSlots|)
      invariant |stage.symbols| <= i && TotalBytes(stage.symbols) <= TotalBytes(names[..i])
      invariant NamedTo(stage.symbols, names, fieldNames, i)
      invariant forall k :: 0 <= k < i ==> |names[k]| > 0
    {
      TotalStep(names, i);
      if |names[i]| == 0 {
        return InvalidSymbols, fieldNames;
      }
      ghost var before := stage.symbols;
      var id;
      status, id := stage.InternSymbol(names[i]);
      if status != Done {
        return;
      }
      SymbolsTotal(before, names[i]);
      fieldNames := fieldNames + [id];
    }
    status := Done;
  }

  lemma TotalEmpty()
    ensures TotalBytes([]) == 0
  {
  }

  lemma SymbolsTotal(symbols: seq<Bytes>, bytes: Bytes)
    ensures TotalBytes(symbols + [bytes]) == TotalBytes(symbols) + |bytes|
  {
    assert (symbols + [bytes])[..|symbols|] == symbols;
  }

  lemma {:induction false} TotalStep(names: seq<Bytes>, i: nat)
    requires i < |names|
    ensures TotalBytes(names[..i + 1]) == TotalBytes(names[..i]) + |names[i]|
    ensures TotalBytes(names[..i + 1]) <= TotalBytes(names)
    decreases |names|
  {
    assert names[..i + 1][..i] == names[..i];
    if i + 1 == |names| {
      assert names[..i + 1] == names;
    } else {
      var shorter := names[..|names| - 1];
      TotalStep(shorter, i);
      assert shorter[..i + 1] == names[..i + 1];
    }
  }

  lemma {:induction false} SymbolBytesStep(literals: seq<Literal>, i: nat)
    requires i < |literals|
    ensures SymbolBytes(literals[..i + 1]) ==
            SymbolBytes(literals[..i]) + (if literals[i].Symbol? then |literals[i].bytes| else 0)
    ensures SymbolBytes(literals[..i + 1]) <= SymbolBytes(literals)
    decreases |literals|
  {
    assert literals[..i + 1][..i] == literals[..i];
    if i + 1 == |literals| {
      assert literals[..i + 1] == literals;
    } else {
      var shorter := literals[..|literals| - 1];
      SymbolBytesStep(shorter, i);
      assert shorter[..i + 1] == literals[..i + 1];
    }
  }

  lemma SymbolBytesEmpty()
    ensures SymbolBytes([]) == 0
  {
  }

  /** Intern one literal: its symbol first, then its canonical key. */
  method LowerLiteral(stage: ConstantStage, literal: Literal) returns (status: Status, value: nat, symbol: nat)
    requires stage.Valid() && |stage.symbols| < |stage.symbolSlots| && |stage.values| < |stage.valueSlots|
    modifies stage
    ensures stage.Valid() && |stage.symbolSlots| == old(|stage.symbolSlots|)
    ensures |stage.valueSlots| == old(|stage.valueSlots|)
    ensures old(stage.symbols) <= stage.symbols && |stage.symbols| <= old(|stage.symbols|) + 1
    ensures old(stage.values) <= stage.values && |stage.values| <= old(|stage.values|) + 1
    ensures TotalBytes(stage.symbols) <= old(TotalBytes(stage.symbols)) +
            (if literal.Symbol? then |literal.bytes| else 0)
    ensures status == Done ==> Remaps(stage.symbols, stage.values, literal, value, symbol)
    ensures (&& old(|stage.symbols|) < MAX_UINT32 && old(|stage.values|) < MAX_UINT32
             && old(TotalBytes(stage.symbols)) + (if literal.Symbol? then |literal.bytes| else 0) <= MAX_UINT32)
            ==> status == Done
    ensures status == Done || status == TooLarge
  {
    hide ConstantStage.Valid, TotalBytes;
    var key;
    value, symbol := 0, 0;
    match literal {
      case Symbol(bytes) =>
        ghost var before := stage.symbols;
        status, symbol := stage.InternSymbol(bytes);
        if status != Done {
          return;
        }
        SymbolsTotal(before, bytes);
        key := SymbolKey(symbol);
      case Integer(i) => key := IntegerKey(i);
      case Bool(b) => key := BooleanKey(b);
      case Timestamp(t) => key := TimestampKey(t);
    }
    status, value := stage.InternValue(key);
  }

  /** Intern the literals in ValueID order and fill both remap columns. */
  method CanonicalizeValues(stage: ConstantStage, literals: seq<Literal>)
    returns (status: Status, valueRemap: seq<nat>, symbolRemap: seq<nat>)
    requires stage.Valid() && stage.values == [] && |stage.symbols| + |literals| <= |stage.symbolSlots|
    requires |literals| <= |stage.valueSlots|
    requires |stage.symbols| + |literals| < MAX_UINT32
    modifies stage
    ensures stage.Valid() && old(stage.symbols) <= stage.symbols
    ensures status == Done ==> RemappedTo(stage.symbols, stage.values, literals, valueRemap, symbolRemap, |literals|)
    ensures old(TotalBytes(stage.symbols)) + SymbolBytes(literals) <= MAX_UINT32 ==> status == Done
    ensures status == Done || status == TooLarge
  {
    hide ConstantStage.Valid, TotalBytes, SymbolBytes, Remaps;
    SymbolBytesEmpty();
    valueRemap, symbolRemap := [], [];
    assert literals[..0] == [] && literals[..|literals|] == literals;
    ghost var start := stage.symbols;
    for i := 0 to |literals|
      invariant stage.Valid() && |stage.symbolSlots| == old(|stage.symbolSlots|)
      invariant |stage.valueSlots| == old(|stage.valueSlots|)
      invariant start <= stage.symbols && |stage.symbols| <= |start| + i && |stage.values| <= i
      invariant TotalBytes(stage.symbols) <= TotalBytes(start) + SymbolBytes(literals[..i])
      invariant RemappedTo(stage.symbols, stage.values, literals, valueRemap, symbolRemap, i)
    {
      SymbolBytesStep(literals, i);
      ghost var symbols, values := stage.symbols, stage.values;
      var value, symbol;
      status, value, symbol := LowerLiteral(stage, literals[i]);
      if status != Done {
        return;
      }
      RemappedSurvives(symbols, stage.symbols, values, stage.values, literals, valueRemap, symbolRemap, i);
      valueRemap, symbolRemap := valueRemap + [value], symbolRemap + [symbol];
    }
    status := Done;
  }

  /** The constant stage. Distinct canonical spaces, every source literal and
      field name found in them, and no failure within the size limits. */
  method LowerConstants(names: seq<Bytes>, literals: seq<Literal>, hashBytes: Bytes -> nat, hashLiteral: Literal -> nat)
    returns (status: Status, c: Canonical)
    ensures status == Done ==> CanonicalOk(c, names, literals)
    ensures ConstantsFit(names, literals) ==> status == Done
  {
    c := Canonical([], [], [], [], []);
    if |names| + |literals| > MAX_INT32 / 4 {
      return TooLarge, c;
    }
    hide PoolOk, Remaps, TotalBytes, SymbolBytes;
    var stage := new ConstantStage(hashBytes, hashLiteral, |names|, |literals|);
    var fieldNames;
    status, fieldNames := LowerFieldNames(stage, names);
    if status != Done {
      return;
    }
    ghost var before := stage.symbols;
    var valueRemap, symbolRemap;
    status, valueRemap, symbolRemap := CanonicalizeValues(stage, literals);
    if status != Done {
      return;
    }
    c := Canonical(stage.symbols, stage.values, fieldNames, valueRemap, symbolRemap);
    StageDistinct(stage);
  }

  lemma StageDistinct(stage: ConstantStage)
    requires stage.Valid()
    ensures Distinct(stage.symbols) && Distinct(stage.values) && KeysOk(stage.values, stage.symbols)
  {
    hide TableOk;
    forall i, j | 0 <= i < j < |stage.values|
      ensures stage.values[i] != stage.values[j]
    {
      var spelled := SpelledAll(stage.values, stage.symbols);
      assert spelled[i] != spelled[j];
    }
  }
}
