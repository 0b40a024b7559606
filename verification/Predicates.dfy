/** Leaf evaluation over bit planes: the scalar reference, the vector path and the
    fact-index path. A word is its 64 bits, and row 64w + k of a shard is bit k of
    word w. */
module Predicates {
  import opened Bitsets
  import opened Programs

  type Word = w: seq<bool> | |w| == 64 witness seq(64, _ => false)

  type Plane = seq<Word>

  function Zero(): Word {
    seq(64, _ => false)
  }

  function AndWord(a: Word, b: Word): Word {
    seq(64, k requires 0 <= k < 64 => a[k] && b[k])
  }

  function OrWord(a: Word, b: Word): Word {
    seq(64, k requires 0 <= k < 64 => a[k] || b[k])
  }

  function AndNotWord(a: Word, b: Word): Word {
    seq(64, k requires 0 <= k < 64 => a[k] && !b[k])
  }

  function NotWord(a: Word): Word {
    seq(64, k requires 0 <= k < 64 => !a[k])
  }

  /** Symbols, integers and timestamps are one value per row; booleans are packed. */
  datatype Column = Scalars(values: seq<int>) | Flags(words: Plane)

  datatype Test =
    | Exists
    | Defined
    | Compare(op: Opcode, operand: int)
    | CompareFlag(equal: bool, flag: bool)
    | Member(values: seq<int>)
    | MemberFlag(flags: seq<bool>)

  /** A range of rows of a physical batch that starts at a word boundary. */
  datatype Shard = Shard(base: nat, rows: nat, presence: Plane, column: Column)

  predicate ShardOk(s: Shard) {
    && s.base % 64 == 0
    && s.base / 64 + WordCount(s.rows) <= |s.presence|
    && match s.column
       case Scalars(values) => s.base + s.rows <= |values|
       case Flags(words) => s.base / 64 + WordCount(s.rows) <= |words|
  }

  predicate IsOrder(op: Opcode) {
    EQUAL <= op <= GREATER_EQUAL && op != IN && op != EXISTS
  }

  predicate WellTyped(test: Test, column: Column) {
    match test
    case Exists => true
    case Defined => true
    case Compare(op, _) => column.Scalars? && IsOrder(op)
    case CompareFlag(_, _) => column.Flags?
    case Member(_) => column.Scalars?
    case MemberFlag(_) => column.Flags?
  }

  const LESS_EQUAL: Opcode := 6
  const GREATER: Opcode := 7

  function CompareValues(op: Opcode, left: int, right: int): bool
    requires IsOrder(op)
  {
    if op == EQUAL then left == right
    else if op == NOT_EQUAL then left != right
    else if op == LESS then left < right
    else if op == LESS_EQUAL then left <= right
    else if op == GREATER then left > right
    else left >= right
  }

  predicate InShard(s: Shard, w: nat, k: nat) {
    w < WordCount(s.rows) && k < 64 && 64 * w + k < s.rows
  }

  function PresentAt(s: Shard, w: nat, k: nat): bool
    requires ShardOk(s) && w < WordCount(s.rows) && k < 64
  {
    s.presence[s.base / 64 + w][k]
  }

  function ValueAt(s: Shard, w: nat, k: nat): int
    requires ShardOk(s) && s.column.Scalars? && InShard(s, w, k)
  {
    s.column.values[s.base + 64 * w + k]
  }

  function FlagAt(s: Shard, w: nat, k: nat): bool
    requires ShardOk(s) && s.column.Flags? && w < WordCount(s.rows) && k < 64
  {
    s.column.words[s.base / 64 + w][k]
  }

  /** Whether the test holds of the value of a row. */
  function MatchesAt(s: Shard, test: Test, w: nat, k: nat): bool
    requires ShardOk(s) && WellTyped(test, s.column) && InShard(s, w, k)
  {
    match test
    case Exists => true
    case Defined => true
    case Compare(op, operand) => CompareValues(op, ValueAt(s, w, k), operand)
    case CompareFlag(equal, flag) => (FlagAt(s, w, k) == flag) == equal
    case Member(values) => ValueAt(s, w, k) in values
    case MemberFlag(flags) => FlagAt(s, w, k) in flags
  }

  datatype Planes = Planes(positive: Plane, negative: Plane, missing: Plane)

  /** The three bits of a row: a missing fact decides nothing except Defined, and bits
      past the last row are clear. */
  predicate BitsOk(s: Shard, test: Test, positive: bool, negative: bool, missing: bool, w: nat, k: nat)
    requires ShardOk(s) && WellTyped(test, s.column) && w < WordCount(s.rows) && k < 64
  {
    if !InShard(s, w, k) then !positive && !negative && !missing
    else
      var present := PresentAt(s, w, k);
      && (positive <==> present && MatchesAt(s, test, w, k))
      && (negative <==> if test.Defined? then !present else present && !MatchesAt(s, test, w, k))
      && (missing <==> !test.Defined? && !present)
  }

  predicate WordOk(s: Shard, test: Test, positive: Word, negative: Word, missing: Word, w: nat)
    requires ShardOk(s) && WellTyped(test, s.column) && w < WordCount(s.rows)
  {
    forall k :: 0 <= k < 64 ==> BitsOk(s, test, positive[k], negative[k], missing[k], w, k)
  }

  predicate PlanesOk(s: Shard, test: Test, p: Planes)
    requires ShardOk(s) && WellTyped(test, s.column)
  {
    && |p.positive| == |p.negative| == |p.missing| == WordCount(s.rows)
    && forall w :: 0 <= w < WordCount(s.rows) ==> WordOk(s, test, p.positive[w], p.negative[w], p.missing[w], w)
  }

  /** The planes are determined: evaluators that meet them agree bit for bit. */
  lemma PlanesAreDetermined(s: Shard, test: Test, p: Planes, q: Planes)
    requires ShardOk(s) && WellTyped(test, s.column) && PlanesOk(s, test, p) && PlanesOk(s, test, q)
    ensures p == q
  {
    forall w | 0 <= w < WordCount(s.rows)
      ensures p.positive[w] == q.positive[w] && p.negative[w] == q.negative[w] && p.missing[w] == q.missing[w]
    {
      assert WordOk(s, test, p.positive[w], p.negative[w], p.missing[w], w);
      assert WordOk(s, test, q.positive[w], q.negative[w], q.missing[w], w);
      hide MatchesAt;
      forall k | 0 <= k < 64
        ensures p.positive[w][k] == q.positive[w][k] && p.negative[w][k] == q.negative[w][k]
        ensures p.missing[w][k] == q.missing[w][k]
      {
        assert BitsOk(s, test, p.positive[w][k], p.negative[w][k], p.missing[w][k], w, k);
        assert BitsOk(s, test, q.positive[w][k], q.negative[w][k], q.missing[w][k], w, k);
      }
    }
  }

  /** The bits of a word that are rows; the last word may be partial. */
  function LeafWordMask(w: nat, words: nat, rows: nat): Word {
    if w + 1 != words || rows % 64 == 0 then seq(64, _ => true) else seq(64, k requires 0 <= k < 64 => k < rows % 64)
  }

  lemma LeafMaskExact(s: Shard, w: nat, k: nat)
    requires w < WordCount(s.rows) && k < 64
    ensures LeafWordMask(w, WordCount(s.rows), s.rows)[k] <==> InShard(s, w, k)
  {
  }

  /** A word whose row bits say which rows match; other bits are free. */
  ghost predicate MatchWordOk(s: Shard, test: Test, matches: Word, w: nat)
    requires ShardOk(s) && WellTyped(test, s.column) && w < WordCount(s.rows)
  {
    forall k: nat :: InShard(s, w, k) ==> (matches[k] <==> MatchesAt(s, test, w, k))
  }

  /** Combining presence and matches gives the planes of a comparison. */
  lemma CombineWord(s: Shard, test: Test, w: nat, matches: Word)
    requires ShardOk(s) && WellTyped(test, s.column) && w < WordCount(s.rows)
    requires !test.Exists? && !test.Defined? && MatchWordOk(s, test, matches, w)
    ensures var valid := LeafWordMask(w, WordCount(s.rows), s.rows);
            var present := AndWord(s.presence[s.base / 64 + w], valid);
            WordOk(s, test, AndWord(present, matches), AndNotWord(present, matches), AndNotWord(valid, present), w)
  {
    hide MatchesAt, LeafWordMask;
    forall k | 0 <= k < 64
      ensures LeafWordMask(w, WordCount(s.rows), s.rows)[k] <==> InShard(s, w, k)
    {
      LeafMaskExact(s, w, k);
    }
  }

  lemma PresenceWord(s: Shard, test: Test, w: nat)
    requires ShardOk(s) && WellTyped(test, s.column) && w < WordCount(s.rows) && (test.Exists? || test.Defined?)
    ensures var valid := LeafWordMask(w, WordCount(s.rows), s.rows);
            var present := AndWord(s.presence[s.base / 64 + w], valid);
            WordOk(s, test, present, if test.Defined? then AndNotWord(valid, present) else Zero(),
                   if test.Defined? then Zero() else AndNotWord(valid, present), w)
  {
    hide LeafWordMask;
    forall k | 0 <= k < 64
      ensures LeafWordMask(w, WordCount(s.rows), s.rows)[k] <==> InShard(s, w, k)
    {
      LeafMaskExact(s, w, k);
    }
  }

  // ----- the scalar reference -----

  /** Compare the rows of one word against a scalar operand. */
  method CompareWord(s: Shard, test: Test, w: nat) returns (matches: Word)
    requires ShardOk(s) && WellTyped(test, s.column) && w < WordCount(s.rows) && test.Compare?
    ensures MatchWordOk(s, test, matches, w)
  {
    matches := Zero();
    var start := 64 * w;
    var end := if start + 64 < s.rows then start + 64 else s.rows;
    for request := start to end
      invariant forall k: nat :: InShard(s, w, k) ==> (matches[k] <==> start + k < request && MatchesAt(s, test, w, k))
    {
      var bit := request - start;
      if CompareValues(test.op, s.column.values[s.base + request], test.operand) {
        matches := matches[bit := true];
      }
    }
  }

  /** Compare the flags of one word: complement once for a false operand and once for
      an inequality. */
  method CompareFlagWord(s: Shard, test: Test, w: nat) returns (matches: Word)
    requires ShardOk(s) && WellTyped(test, s.column) && w < WordCount(s.rows) && test.CompareFlag?
    ensures MatchWordOk(s, test, matches, w)
  {
    matches := s.column.words[s.base / 64 + w];
    if !test.flag {
      matches := NotWord(matches);
    }
    if !test.equal {
      matches := NotWord(matches);
    }
  }

  /** The rows seen so far to equal a list value, and the rows below `next` that equal
      the current one. */
  ghost predicate FilledTo(s: Shard, values: seq<int>, matches: Plane, i: nat, next: nat)
    requires ShardOk(s) && s.column.Scalars? && i <= |values|
  {
    && |matches| == WordCount(s.rows)
    && forall w: nat, k: nat :: InShard(s, w, k) ==>
         (matches[w][k] <==>
          ValueAt(s, w, k) in values[..i] ||
          (i < |values| && 64 * w + k < next && ValueAt(s, w, k) == values[i]))
  }

  lemma FillBit(s: Shard, values: seq<int>, matches: Plane, i: nat, r: nat)
    requires ShardOk(s) && s.column.Scalars? && i < |values| && r < s.rows && FilledTo(s, values, matches, i, r)
    ensures r / 64 < |matches|
    ensures s.column.values[s.base + r] == values[i] ==>
              FilledTo(s, values, matches[r / 64 := matches[r / 64][r % 64 := true]], i, r + 1)
    ensures s.column.values[s.base + r] != values[i] ==> FilledTo(s, values, matches, i, r + 1)
  {
    forall w: nat, k: nat | InShard(s, w, k)
      ensures 64 * w + k == r <==> w == r / 64 && k == r % 64
    {
    }
  }

  lemma FillNext(s: Shard, values: seq<int>, matches: Plane, i: nat)
    requires ShardOk(s) && s.column.Scalars? && i < |values| && FilledTo(s, values, matches, i, s.rows)
    ensures FilledTo(s, values, matches, i + 1, 0)
  {
    assert values[..i + 1] == values[..i] + [values[i]];
  }

  /** Set the bits of the rows whose value is in the list. */
  method FillInMatches(s: Shard, values: seq<int>) returns (matches: Plane)
    requires ShardOk(s) && s.column.Scalars?
    ensures FilledTo(s, values, matches, |values|, 0)
  {
    matches := seq(WordCount(s.rows), _ => Zero());
    for i := 0 to |values|
      invariant FilledTo(s, values, matches, i, 0)
    {
      for r := 0 to s.rows
        invariant FilledTo(s, values, matches, i, r)
      {
        hide FilledTo;
        FillBit(s, values, matches, i, r);
        if s.column.values[s.base + r] == values[i] {
          matches := matches[r / 64 := matches[r / 64][r % 64 := true]];
        }
      }
      FillNext(s, values, matches, i);
    }
  }

  ghost predicate FlagsFilledTo(s: Shard, flags: seq<bool>, matches: Plane, i: nat)
    requires ShardOk(s) && s.column.Flags? && i <= |flags|
  {
    && |matches| == WordCount(s.rows)
    && forall w: nat, k: nat :: InShard(s, w, k) ==> (matches[w][k] <==> FlagAt(s, w, k) in flags[..i])
  }

  method FillInFlags(s: Shard, flags: seq<bool>) returns (matches: Plane)
    requires ShardOk(s) && s.column.Flags?
    ensures FlagsFilledTo(s, flags, matches, |flags|)
  {
    matches := seq(WordCount(s.rows), _ => Zero());
    for i := 0 to |flags|
      invariant FlagsFilledTo(s, flags, matches, i)
    {
      var before := matches;
      for w := 0 to WordCount(s.rows)
        invariant |matches| == WordCount(s.rows)
        invariant forall v :: w <= v < |matches| ==> matches[v] == before[v]
        invariant forall v: nat, k: nat :: v < w && InShard(s, v, k) ==>
                    (matches[v][k] <==> before[v][k] || FlagAt(s, v, k) == flags[i])
      {
        var got := s.column.words[s.base / 64 + w];
        matches := matches[w := OrWord(matches[w], if flags[i] then got else NotWord(got))];
      }
      assert flags[..i + 1] == flags[..i] + [flags[i]];
    }
  }

  /** The match word of any test but the presence tests. */
  method MatchWord(s: Shard, test: Test, listed: Plane, w: nat) returns (matches: Word)
    requires ShardOk(s) && WellTyped(test, s.column) && w < WordCount(s.rows) && !test.Exists? && !test.Defined?
    requires test.Member? ==> FilledTo(s, test.values, listed, |test.values|, 0)
    requires test.MemberFlag? ==> FlagsFilledTo(s, test.flags, listed, |test.flags|)
    ensures MatchWordOk(s, test, matches, w)
  {
    match test {
      case Compare(_, _) => matches := CompareWord(s, test, w);
      case CompareFlag(_, _) => matches := CompareFlagWord(s, test, w);
      case Member(values) =>
        matches := listed[w];
        assert values[..|values|] == values;
      case MemberFlag(flags) =>
        matches := listed[w];
        assert flags[..|flags|] == flags;
    }
  }

  /** The scalar evaluator. */
  method EvalScalar(s: Shard, test: Test) returns (p: Planes)
    requires ShardOk(s) && WellTyped(test, s.column)
    ensures PlanesOk(s, test, p)
  {
    hide MatchWordOk, FilledTo, FlagsFilledTo, WordOk;
    var words := WordCount(s.rows);
    var listed: Plane := [];
    if test.Member? {
      listed := FillInMatches(s, test.values);
    } else if test.MemberFlag? {
      listed := FillInFlags(s, test.flags);
    }
    var positive: Plane, negative: Plane, missing: Plane := [], [], [];
    for w := 0 to words
      invariant |positive| == |negative| == |missing| == w
      invariant forall v :: 0 <= v < w ==> WordOk(s, test, positive[v], negative[v], missing[v], v)
    {
      var valid := LeafWordMask(w, words, s.rows);
      var present := AndWord(s.presence[s.base / 64 + w], valid);
      var p1: Word, n1: Word, m1: Word := present, Zero(), Zero();
      if test.Defined? {
        PresenceWord(s, test, w);
        n1 := AndNotWord(valid, present);
      } else {
        m1 := AndNotWord(valid, present);
        if test.Exists? {
          PresenceWord(s, test, w);
        } else {
          var matches := MatchWord(s, test, listed, w);
          CombineWord(s, test, w, matches);
          p1, n1 := AndWord(present, matches), AndNotWord(present, matches);
        }
      }
      positive, negative, missing := positive + [p1], negative + [n1], missing + [m1];
    }
    p := Planes(positive, negative, missing);
  }

  // ----- the vector path -----

  /** Clear the bits past the last row. */
  function MaskTail(plane: Plane, rows: nat): Plane
    requires |plane| == WordCount(rows)
  {
    if rows % 64 == 0 then plane
    else
      var last := |plane| - 1;
      plane[last := AndWord(plane[last], seq(64, k requires 0 <= k < 64 => k < rows % 64))]
  }

  lemma MaskTailExact(s: Shard, plane: Plane, w: nat, k: nat)
    requires |plane| == WordCount(s.rows) && w < |plane| && k < 64
    ensures |MaskTail(plane, s.rows)| == |plane|
    ensures MaskTail(plane, s.rows)[w][k] <==> plane[w][k] && InShard(s, w, k)
  {
  }

  function AndWords(a: Plane, b: Plane): Plane
    requires |a| == |b|
  {
    seq(|a|, w requires 0 <= w < |a| => AndWord(a[w], b[w]))
  }

  function AndNotWords(a: Plane, b: Plane): Plane
    requires |a| == |b|
  {
    seq(|a|, w requires 0 <= w < |a| => AndNotWord(a[w], b[w]))
  }

  /** One truth per row of a lane comparison. */
  method CompareLanes(s: Shard, test: Test) returns (mask: seq<bool>)
    requires ShardOk(s) && WellTyped(test, s.column) && test.Compare?
    ensures |mask| == s.rows
    ensures forall w: nat, k: nat :: InShard(s, w, k) ==> (mask[64 * w + k] <==> MatchesAt(s, test, w, k))
  {
    mask := [];
    for r := 0 to s.rows
      invariant |mask| == r && forall j :: 0 <= j < r ==>
                  mask[j] == CompareValues(test.op, s.column.values[s.base + j], test.operand)
    {
      mask := mask + [CompareValues(test.op, s.column.values[s.base + r], test.operand)];
    }
  }

  /** Pack row truths into words. */
  method PackMask(s: Shard, mask: seq<bool>) returns (plane: Plane)
    requires |mask| == s.rows
    ensures |plane| == WordCount(s.rows)
    ensures forall w: nat, k: nat :: w < |plane| && k < 64 ==> (plane[w][k] <==> InShard(s, w, k) && mask[64 * w + k])
  {
    plane := [];
    for w := 0 to WordCount(s.rows)
      invariant |plane| == w
      invariant forall v: nat, k: nat :: v < w && k < 64 ==> (plane[v][k] <==> InShard(s, v, k) && mask[64 * v + k])
    {
      var word: Word := seq(64, k requires 0 <= k < 64 => 64 * w + k < |mask| && mask[64 * w + k]);
      plane := plane + [word];
    }
  }

  /** A shard's words of a physical plane. */
  function WordColumn(s: Shard, plane: Plane): Plane
    requires s.base / 64 + WordCount(s.rows) <= |plane|
  {
    plane[s.base / 64..s.base / 64 + WordCount(s.rows)]
  }

  /** Masked conjunctions of presence with matches and non-matches are the planes. */
  lemma VectorPlanes(s: Shard, test: Test, matches: Plane)
    requires ShardOk(s) && WellTyped(test, s.column) && !test.Exists? && !test.Defined?
    requires |matches| == WordCount(s.rows)
    requires forall w :: 0 <= w < |matches| ==> MatchWordOk(s, test, matches[w], w)
    ensures var presence := WordColumn(s, s.presence);
            var missing := seq(|matches|,
                               w requires 0 <= w < |matches| =>
                                 AndNotWord(LeafWordMask(w, |matches|, s.rows), presence[w]));
            PlanesOk(s, test, Planes(MaskTail(AndWords(presence, matches), s.rows),
                                     MaskTail(AndNotWords(presence, matches), s.rows), missing))
  {
    var presence := WordColumn(s, s.presence);
    var positive, negative := AndWords(presence, matches), AndNotWords(presence, matches);
    var missing := seq(|matches|,
                       w requires 0 <= w < |matches| =>
                                 AndNotWord(LeafWordMask(w, |matches|, s.rows), presence[w]));
    hide MaskTail, MatchesAt, LeafWordMask;
    forall w | 0 <= w < |matches|
      ensures |MaskTail(positive, s.rows)| == |MaskTail(negative, s.rows)| == |matches|
      ensures WordOk(s, test, MaskTail(positive, s.rows)[w], MaskTail(negative, s.rows)[w], missing[w], w)
    {
      MaskTailExact(s, positive, w, 0);
      MaskTailExact(s, negative, w, 0);
      assert MatchWordOk(s, test, matches[w], w);
      forall k | 0 <= k < 64
        ensures BitsOk(s, test, MaskTail(positive, s.rows)[w][k], MaskTail(negative, s.rows)[w][k], missing[w][k], w, k)
      {
        MaskTailExact(s, positive, w, k);
        MaskTailExact(s, negative, w, k);
        LeafMaskExact(s, w, k);
      }
    }
    MaskTailLength(positive, s.rows);
    MaskTailLength(negative, s.rows);
  }

  lemma MaskTailLength(plane: Plane, rows: nat)
    requires |plane| == WordCount(rows)
    ensures |MaskTail(plane, rows)| == |plane|
  {
  }

  /** The vector evaluator. Only comparisons take this path; the planes it writes are
      those of the scalar evaluator. */
  method EvalVector(s: Shard, test: Test) returns (taken: bool, p: Planes)
    requires ShardOk(s) && WellTyped(test, s.column)
    ensures taken <==> test.Compare? || test.CompareFlag?
    ensures taken ==> PlanesOk(s, test, p)
  {
    hide MaskTail, PlanesOk, MatchWordOk;
    var words := WordCount(s.rows);
    var presence := WordColumn(s, s.presence);
    var missing: Plane := seq(words,
                              w requires 0 <= w < words => AndNotWord(LeafWordMask(w, words, s.rows), presence[w]));
    p := Planes([], [], missing);
    if test.CompareFlag? {
      var values := WordColumn(s, s.column.words);
      ghost var matches := if test.flag == test.equal then values
                           else seq(words, w requires 0 <= w < words => NotWord(values[w]));
      FlagMatches(s, test, matches);
      VectorPlanes(s, test, matches);
      if test.flag == test.equal {
        p := Planes(MaskTail(AndWords(presence, values), s.rows), MaskTail(AndNotWords(presence, values), s.rows),
                    missing);
      } else {
        Complements(presence, values, matches);
        p := Planes(MaskTail(AndNotWords(presence, values), s.rows), MaskTail(AndWords(presence, values), s.rows),
                    missing);
      }
      return true, p;
    }
    if !test.Compare? {
      return false, p;
    }
    var mask := CompareLanes(s, test);
    var packed := PackMask(s, mask);
    PackedMatches(s, test, mask, packed);
    VectorPlanes(s, test, packed);
    var positive := AndWords(packed, presence);
    Restricts(presence, packed);
    p := Planes(MaskTail(positive, s.rows), MaskTail(AndNotWords(presence, positive), s.rows), missing);
    taken := true;
  }

  lemma Complements(presence: Plane, values: Plane, matches: Plane)
    requires |presence| == |values| == |matches| && forall w :: 0 <= w < |values| ==> matches[w] == NotWord(values[w])
    ensures AndNotWords(presence, values) == AndWords(presence, matches)
    ensures AndWords(presence, values) == AndNotWords(presence, matches)
  {
    forall w | 0 <= w < |values|
      ensures AndNotWord(presence[w], values[w]) == AndWord(presence[w], matches[w])
      ensures AndWord(presence[w], values[w]) == AndNotWord(presence[w], matches[w])
    {
    }
  }

  lemma Restricts(presence: Plane, packed: Plane)
    requires |presence| == |packed|
    ensures AndWords(presence, packed) == AndWords(packed, presence)
    ensures AndNotWords(presence, packed) == AndNotWords(presence, AndWords(packed, presence))
  {
    forall w | 0 <= w < |packed|
      ensures AndWord(presence[w], packed[w]) == AndWord(packed[w], presence[w])
      ensures AndNotWord(presence[w], packed[w]) == AndNotWord(presence[w], AndWord(packed[w], presence[w]))
    {
    }
  }

  lemma FlagMatches(s: Shard, test: Test, matches: Plane)
    requires ShardOk(s) && WellTyped(test, s.column) && test.CompareFlag?
    requires var values := WordColumn(s, s.column.words);
             matches == if test.flag == test.equal then values
                        else seq(|values|, w requires 0 <= w < |values| => NotWord(values[w]))
    ensures |matches| == WordCount(s.rows) && forall w :: 0 <= w < |matches| ==> MatchWordOk(s, test, matches[w], w)
  {
  }

  lemma PackedMatches(s: Shard, test: Test, mask: seq<bool>, packed: Plane)
    requires ShardOk(s) && WellTyped(test, s.column) && test.Compare? && |mask| == s.rows
    requires |packed| == WordCount(s.rows)
    requires forall w: nat, k: nat :: InShard(s, w, k) ==> (mask[64 * w + k] <==> MatchesAt(s, test, w, k))
    requires forall w: nat, k: nat :: w < |packed| && k < 64 ==>
               (packed[w][k] <==> InShard(s, w, k) && mask[64 * w + k])
    ensures forall w :: 0 <= w < |packed| ==> MatchWordOk(s, test, packed[w], w)
  {
    hide MatchesAt;
  }
}
