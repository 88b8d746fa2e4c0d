/**
 * The in-memory part of the schedule pages' database helpers: decoding the
 * stored rows into lists of matchups ordered by their gameslot keys,
 * truncating the fetched rows, and the column headers of the 256
 * gameslots. The decoder orders the keys as the stored strings compare
 * (character by character), which lists gameslot 10 before gameslot 2; the
 * decoder is modelled for any strict total order on keys, both with that
 * string order and with the numeric order the headers follow.
 */
module WebDatabase {
  import opened Weeks
  import opened Permutation
  import Registry

  /** One fetched row: matchup i is played at gameslot key matchupsGameslot[i]; its year and score. */
  datatype DbRow<K> = DbRow(matchupsGameslot: seq<K>, year: int, score: real)

  /** One decoded row: the matchups in the order of their gameslot keys, with the row's year and score. */
  datatype DecodedRow = DecodedRow(schedule: seq<seq<string>>, year: int, score: real)

  /**
   * Python's order on strings: the first differing character decides, and
   * a proper prefix comes first.
   */
  predicate LexLess(a: string, b: string)
    decreases |a|
  {
    |b| > 0 && (|a| == 0 || a[0] < b[0] || (a[0] == b[0] && LexLess(a[1..], b[1..])))
  }

  /** The order on integer gameslot keys. */
  predicate NatLess(a: nat, b: nat)
  {
    a < b
  }

  /** `less` is irreflexive, transitive and relates any two different keys one way or the other. */
  ghost predicate StrictTotalOrder<K(!new)>(less: (K, K) -> bool)
  {
    (forall a :: !less(a, a)) &&
    (forall a, b, c :: less(a, b) && less(b, c) ==> less(a, c)) &&
    (forall a, b :: a != b ==> less(a, b) || less(b, a))
  }

  lemma {:induction false} LexIrreflexive(a: string)
    ensures !LexLess(a, a)
    decreases |a|
  {
    if |a| > 0 {
      LexIrreflexive(a[1..]);
    }
  }

  lemma {:induction false} LexTransitive(a: string, b: string, c: string)
    requires LexLess(a, b) && LexLess(b, c)
    ensures LexLess(a, c)
    decreases |a|
  {
    if |a| > 0 && a[0] == b[0] && b[0] == c[0] {
      LexTransitive(a[1..], b[1..], c[1..]);
    }
  }

  lemma {:induction false} LexTotal(a: string, b: string)
    requires a != b
    ensures LexLess(a, b) || LexLess(b, a)
    decreases |a|
  {
    if |a| > 0 && |b| > 0 && a[0] == b[0] {
      assert a == [a[0]] + a[1..] && b == [b[0]] + b[1..];
      LexTotal(a[1..], b[1..]);
    }
  }

  /** The string order is a strict total order, so sorting string keys gives one definite list. */
  lemma LexOrder()
    ensures StrictTotalOrder(LexLess)
  {
    forall a: string
      ensures !LexLess(a, a)
    {
      LexIrreflexive(a);
    }
    forall a: string, b: string, c: string | LexLess(a, b) && LexLess(b, c)
      ensures LexLess(a, c)
    {
      LexTransitive(a, b, c);
    }
    forall a: string, b: string | a != b
      ensures LexLess(a, b) || LexLess(b, a)
    {
      LexTotal(a, b);
    }
  }

  lemma NatOrder()
    ensures StrictTotalOrder(NatLess)
  {
  }

  /** Under the string order "10" comes before "2". */
  lemma TenBeforeTwo()
    ensures LexLess("10", "2") && !LexLess("2", "10")
  {
    assert "10"[0] == '1' && "2"[0] == '2';
  }

  /** Every key comes before every later one. */
  predicate Sorted<K>(xs: seq<K>, less: (K, K) -> bool)
  {
    forall i, j :: 0 <= i < j < |xs| ==> less(xs[i], xs[j])
  }

  predicate Unique<K(==,!new)>(xs: seq<K>)
  {
    forall i, j :: 0 <= i < j < |xs| ==> xs[i] != xs[j]
  }

  /**
   * The dict a row's loop fills: each gameslot key mapped to the matchup
   * whose position carries it; a key given twice keeps the later matchup.
   */
  function TokenMap<K(==,!new)>(mt: seq<seq<string>>, tokens: seq<K>): (m: map<K, seq<string>>)
    requires |tokens| <= |mt|
    ensures forall t :: t in m <==> t in tokens
    ensures forall t :: t in m ==>
      (exists i :: 0 <= i < |tokens| && tokens[i] == t && m[t] == mt[i] && forall j :: i < j < |tokens| ==> tokens[j] != t)
    decreases |tokens|
  {
    if |tokens| == 0 then map[]
    else TokenMap(mt, tokens[..|tokens| - 1])[tokens[|tokens| - 1] := mt[|tokens| - 1]]
  }

  /** `keys` lists the keys of `m` in increasing order. */
  ghost predicate SortedKeys<K(!new), V>(m: map<K, V>, keys: seq<K>, less: (K, K) -> bool)
  {
    Sorted(keys, less) && forall t :: t in keys <==> t in m
  }

  /** The schedule lists the values of `m` in the increasing order of their keys. */
  ghost predicate InKeyOrder<K(!new), V>(m: map<K, V>, schedule: seq<V>, less: (K, K) -> bool)
  {
    exists keys :: SortedKeys(m, keys, less) && |schedule| == |keys| &&
      forall k :: 0 <= k < |keys| ==> schedule[k] == m[keys[k]]
  }

  /** Two increasing lists of the same keys are the same list. */
  lemma {:induction false} SortedUnique<K(!new)>(a: seq<K>, b: seq<K>, less: (K, K) -> bool)
    requires StrictTotalOrder(less) && Sorted(a, less) && Sorted(b, less)
    requires forall t :: t in a <==> t in b
    ensures a == b
    decreases |a|
  {
    assert |b| > 0 ==> b[0] in a;
    if |a| > 0 {
      assert a[0] in b;
      assert b[0] in a;
      assert a[0] == b[0] by {
        var i :| 0 <= i < |a| && a[i] == b[0];
        var j :| 0 <= j < |b| && b[j] == a[0];
      }
      forall t
        ensures t in a[1..] <==> t in b[1..]
      {
        if t in a[1..] {
          var i :| 1 <= i < |a| && a[i] == t;
          assert less(a[0], t);
          assert t in b && t != b[0];
          var j :| 0 <= j < |b| && b[j] == t;
          assert t == b[1..][j - 1];
        }
        if t in b[1..] {
          var j :| 1 <= j < |b| && b[j] == t;
          assert less(b[0], t);
          assert t in a && t != a[0];
          var i :| 0 <= i < |a| && a[i] == t;
          assert t == a[1..][i - 1];
        }
      }
      SortedUnique(a[1..], b[1..], less);
      assert a == [a[0]] + a[1..] && b == [b[0]] + b[1..];
    }
  }

  /** A map has one listing in key order: decoding a row gives one definite schedule. */
  lemma InKeyOrderUnique<K(!new), V>(m: map<K, V>, s1: seq<V>, s2: seq<V>, less: (K, K) -> bool)
    requires StrictTotalOrder(less) && InKeyOrder(m, s1, less) && InKeyOrder(m, s2, less)
    ensures s1 == s2
  {
    var k1 :| SortedKeys(m, k1, less) && |s1| == |k1| && forall k :: 0 <= k < |k1| ==> s1[k] == m[k1[k]];
    var k2 :| SortedKeys(m, k2, less) && |s2| == |k2| && forall k :: 0 <= k < |k2| ==> s2[k] == m[k2[k]];
    SortedUnique(k1, k2, less);
  }

  /** Insert a new key into an increasing list, keeping it increasing. */
  method InsertKey<K(==,!new)>(xs: seq<K>, x: K, less: (K, K) -> bool) returns (ys: seq<K>)
    requires StrictTotalOrder(less) && Sorted(xs, less) && x !in xs
    ensures Sorted(ys, less) && |ys| == |xs| + 1
    ensures forall t :: t in ys <==> t in xs || t == x
  {
    var i := 0;
    while i < |xs| && less(xs[i], x)
      invariant 0 <= i <= |xs|
      invariant forall k :: 0 <= k < i ==> less(xs[k], x)
    {
      i := i + 1;
    }
    if i < |xs| {
      assert xs[i] != x;
      assert forall k :: i <= k < |xs| ==> less(x, xs[k]);
    }
    ys := xs[..i] + [x] + xs[i..];
    assert forall t :: t in xs <==> t in xs[..i] || t in xs[i..] by {
      assert xs == xs[..i] + xs[i..];
    }
  }

  /** sorted() on the dict's keys: the distinct keys in increasing order. */
  method SortKeys<K(==,!new)>(xs: seq<K>, less: (K, K) -> bool) returns (ys: seq<K>)
    requires StrictTotalOrder(less) && Unique(xs)
    ensures Sorted(ys, less) && |ys| == |xs|
    ensures forall t :: t in ys <==> t in xs
  {
    ys := [];
    for i := 0 to |xs|
      invariant Sorted(ys, less) && |ys| == i
      invariant forall t :: t in ys <==> t in xs[..i]
    {
      assert xs[i] !in xs[..i];
      ys := InsertKey(ys, xs[i], less);
      assert xs[..i + 1] == xs[..i] + [xs[i]];
    }
    assert xs[..|xs|] == xs;
  }

  /**
   * The dict of one row, filled position by position, with its keys in the
   * order they were first added. When the row's keys are all different
   * there is one key per position.
   */
  method FillRow<K(==,!new)>(mt: seq<seq<string>>, tokens: seq<K>) returns (gm: map<K, seq<string>>, keys: seq<K>)
    requires |tokens| <= |mt|
    ensures gm == TokenMap(mt, tokens)
    ensures Unique(keys) && forall t :: t in keys <==> t in gm
    ensures Unique(tokens) ==> |keys| == |tokens|
  {
    gm := map[];
    keys := [];
    for i := 0 to |tokens|
      invariant gm == TokenMap(mt, tokens[..i])
      invariant Unique(keys) && forall t :: t in keys <==> t in gm
      invariant Unique(tokens) ==> |keys| == i
    {
      assert tokens[..i + 1][..i] == tokens[..i];
      if tokens[i] !in gm {
        keys := keys + [tokens[i]];
      }
      gm := gm[tokens[i] := mt[i]];
    }
    assert tokens[..|tokens|] == tokens;
  }

  /**
   * One row of decode_schedules: the row's dict of gameslot key to matchup,
   * listed in the increasing order of its keys, with year and score passed
   * through; one entry per position when the keys are all different.
   */
  method DecodeRow<K(==,!new)>(mt: seq<seq<string>>, row: DbRow<K>, less: (K, K) -> bool) returns (d: DecodedRow)
    requires |row.matchupsGameslot| <= |mt| && StrictTotalOrder(less)
    ensures d.year == row.year && d.score == row.score
    ensures InKeyOrder(TokenMap(mt, row.matchupsGameslot), d.schedule, less)
    ensures Unique(row.matchupsGameslot) ==> |d.schedule| == |row.matchupsGameslot|
  {
    var gm, keys := FillRow(mt, row.matchupsGameslot);
    var sorted := SortKeys(keys, less);
    var schedule := seq(|sorted|, k requires 0 <= k < |sorted| => gm[sorted[k]]);
    d := DecodedRow(schedule, row.year, row.score);
    assert SortedKeys(gm, sorted, less);
  }

  /** Every row's keys name matchups of the table. */
  predicate RowsFit<K(==,!new)>(mt: seq<seq<string>>, rows: seq<DbRow<K>>)
  {
    forall k :: 0 <= k < |rows| ==> |rows[k].matchupsGameslot| <= |mt|
  }

  /** d is row decoded: same year and score, the matchups listed in key order. */
  ghost predicate DecodesRow<K(!new)>(mt: seq<seq<string>>, row: DbRow<K>, d: DecodedRow, less: (K, K) -> bool)
    requires |row.matchupsGameslot| <= |mt|
  {
    d.year == row.year && d.score == row.score &&
    InKeyOrder(TokenMap(mt, row.matchupsGameslot), d.schedule, less) &&
    (Unique(row.matchupsGameslot) ==> |d.schedule| == |row.matchupsGameslot|)
  }

  /** Row k of the result is row k of the input decoded. */
  ghost predicate DecodesRows<K(!new)>(mt: seq<seq<string>>, rows: seq<DbRow<K>>, decoded: seq<DecodedRow>, less: (K, K) -> bool)
    requires RowsFit(mt, rows)
  {
    |decoded| == |rows| && forall k :: 0 <= k < |rows| ==> DecodesRow(mt, rows[k], decoded[k], less)
  }

  /** Appending row k's decoding extends the decoding of the rows before it. */
  lemma DecodesRowsStep<K(!new)>(mt: seq<seq<string>>, rows: seq<DbRow<K>>, decoded: seq<DecodedRow>, d: DecodedRow,
                                 k: nat, less: (K, K) -> bool)
    requires k < |rows| && RowsFit(mt, rows)
    requires RowsFit(mt, rows[..k]) && DecodesRows(mt, rows[..k], decoded, less)
    requires DecodesRow(mt, rows[k], d, less)
    ensures RowsFit(mt, rows[..k + 1]) && DecodesRows(mt, rows[..k + 1], decoded + [d], less)
  {
    var next := rows[..k + 1];
    forall i | 0 <= i < k + 1
      ensures next[i] == rows[i] && |next[i].matchupsGameslot| <= |mt|
      ensures DecodesRow(mt, next[i], (decoded + [d])[i], less)
    {
      if i < k {
        assert next[i] == rows[..k][i];
        assert (decoded + [d])[i] == decoded[i];
      }
    }
  }

  /**
   * decode_schedules: one decoded row per fetched row, in the same order,
   * each listing its matchups in the key order `less`, year and score
   * unchanged. The stored program orders string keys (`less` = LexLess).
   */
  method DecodeSchedules<K(==,!new)>(mt: seq<seq<string>>, rows: seq<DbRow<K>>, less: (K, K) -> bool)
    returns (decoded: seq<DecodedRow>)
    requires RowsFit(mt, rows) && StrictTotalOrder(less)
    ensures DecodesRows(mt, rows, decoded, less)
  {
    decoded := [];
    for k := 0 to |rows|
      invariant DecodesRows(mt, rows[..k], decoded, less)
    {
      var d := DecodeRow(mt, rows[k], less);
      DecodesRowsStep(mt, rows, decoded, d, k, less);
      decoded := decoded + [d];
    }
    assert rows[..|rows|] == rows;
  }

  /**
   * With the string order, a row whose matchup 0 is at gameslot "2" and
   * matchup 1 at gameslot "10" decodes with the game of gameslot 10 first.
   */
  lemma LexicalOrderMisplaces(mt: seq<seq<string>>, schedule: seq<seq<string>>)
    requires |mt| >= 2 && InKeyOrder(TokenMap(mt, ["2", "10"]), schedule, LexLess)
    ensures |schedule| == 2 && schedule[0] == mt[1] && schedule[1] == mt[0]
  {
    var m := TokenMap(mt, ["2", "10"]);
    TwoKeys(mt);
    var keys :| SortedKeys(m, keys, LexLess) && |schedule| == |keys| && forall k :: 0 <= k < |keys| ==> schedule[k] == m[keys[k]];
    KeysTenTwo(keys);
    assert |schedule| == 2 && schedule[0] == m["10"] && schedule[1] == m["2"];
  }

  /** The keys "2" and "10" in the string order: "10" first. */
  lemma KeysTenTwo(keys: seq<string>)
    requires Sorted(keys, LexLess) && forall t :: t in keys <==> t in ["10", "2"]
    ensures keys == ["10", "2"]
  {
    TenBeforeTwo();
    SortedPair("10", "2", LexLess);
    LexOrder();
    SortedUnique(keys, ["10", "2"], LexLess);
  }

  lemma SortedPair<K>(a: K, b: K, less: (K, K) -> bool)
    requires less(a, b)
    ensures Sorted([a, b], less)
  {
  }

  /** The dict of the row ["2", "10"]: gameslot "2" holds matchup 0 and gameslot "10" matchup 1. */
  lemma TwoKeys(mt: seq<seq<string>>)
    requires |mt| >= 2
    ensures forall t :: t in TokenMap(mt, ["2", "10"]) <==> t in ["10", "2"]
    ensures TokenMap(mt, ["2", "10"])["2"] == mt[0] && TokenMap(mt, ["2", "10"])["10"] == mt[1]
  {
    assert "2" != "10" by {
      assert |"2"| != |"10"|;
    }
    assert ["2", "10"][..1] == ["2"];
    assert ["2"][..0] == [];
  }

  /**
   * With integer keys in numeric order, a stored schedule (a permutation
   * of the gameslots) decodes in gameslot order: entry g is the matchup
   * played at gameslot g, in step with the gameslot headers.
   */
  /** The gameslot keys of a full assignment, in increasing order, are 0, 1, ..., NumGameslots - 1. */
  lemma PermutationKeys(mt: seq<seq<string>>, tokens: seq<nat>, keys: seq<nat>)
    requires IsPermutation(tokens, NumGameslots) && |mt| >= NumGameslots
    requires SortedKeys(TokenMap(mt, tokens), keys, NatLess)
    ensures keys == Identity(NumGameslots)
  {
    var id := Identity(NumGameslots);
    forall t: nat
      ensures t in keys <==> t in id
    {
      if t in id {
        var k :| 0 <= k < |id| && id[k] == t;
        PermutationOnto(tokens, NumGameslots, t);
        var j :| 0 <= j < NumGameslots && tokens[j] == t;
        assert t in tokens;
      }
      if t in keys {
        assert t in tokens;
        var j :| 0 <= j < |tokens| && tokens[j] == t;
        assert id[t] == t;
      }
    }
    NatOrder();
    SortedUnique(keys, id, NatLess);
  }

  /** In a full assignment each gameslot appears once, so it maps to its own matchup. */
  lemma TokenMapAt(mt: seq<seq<string>>, tokens: seq<nat>, i: nat)
    requires IsPermutation(tokens, NumGameslots) && |mt| >= NumGameslots && i < NumGameslots
    ensures tokens[i] in TokenMap(mt, tokens) && TokenMap(mt, tokens)[tokens[i]] == mt[i]
  {
    var m := TokenMap(mt, tokens);
    var g := tokens[i];
    var j :| 0 <= j < |tokens| && tokens[j] == g && m[g] == mt[j] && forall l :: j < l < |tokens| ==> tokens[l] != g;
    assert j == i;
  }

  lemma GameslotOrderAligns(mt: seq<seq<string>>, tokens: seq<nat>, schedule: seq<seq<string>>)
    requires IsPermutation(tokens, NumGameslots) && |mt| >= NumGameslots
    requires InKeyOrder(TokenMap(mt, tokens), schedule, NatLess)
    ensures |schedule| == NumGameslots
    ensures forall i :: 0 <= i < NumGameslots ==> schedule[tokens[i]] == mt[i]
  {
    var m := TokenMap(mt, tokens);
    var keys :| SortedKeys(m, keys, NatLess) && |schedule| == |keys| && forall k :: 0 <= k < |keys| ==> schedule[k] == m[keys[k]];
    PermutationKeys(mt, tokens, keys);
    forall i | 0 <= i < NumGameslots
      ensures schedule[tokens[i]] == mt[i]
    {
      TokenMapAt(mt, tokens, i);
      assert keys[tokens[i]] == tokens[i];
    }
  }

  /** The fetched rows cut as schedules[:num_schedules] when a number is given, with Python's slice bounds. */
  function Truncated<T>(rows: seq<T>, numSchedules: Registry.Option<int>): seq<T>
  {
    if numSchedules.None? then rows
    else if numSchedules.value >= 0 then rows[..if numSchedules.value <= |rows| then numSchedules.value else |rows|]
    else rows[..if |rows| + numSchedules.value >= 0 then |rows| + numSchedules.value else 0]
  }

  /**
   * Truncation keeps a prefix: all rows without a number, the first n (or
   * all if fewer) for n >= 0, and all but the last -n for n < 0.
   */
  lemma TruncatedFacts<T>(rows: seq<T>, numSchedules: Registry.Option<int>)
    ensures Truncated(rows, numSchedules) == rows[..|Truncated(rows, numSchedules)|]
    ensures numSchedules.None? ==> Truncated(rows, numSchedules) == rows
    ensures numSchedules.Some? && numSchedules.value >= 0 ==>
      |Truncated(rows, numSchedules)| == if numSchedules.value <= |rows| then numSchedules.value else |rows|
    ensures numSchedules.Some? && numSchedules.value < 0 ==>
      |Truncated(rows, numSchedules)| == if |rows| + numSchedules.value >= 0 then |rows| + numSchedules.value else 0
  {
  }

  /**
   * get_schedules as written: the fetched rows, truncated, decoded with the
   * gameslot keys as the strings the stored text splits into, so sorted
   * lexically (see LexicalOrderMisplaces).
   */
  method GetSchedules(mt: seq<seq<string>>, rows: seq<DbRow<string>>, numSchedules: Registry.Option<int>)
    returns (decoded: seq<DecodedRow>)
    requires RowsFit(mt, rows)
    ensures RowsFit(mt, Truncated(rows, numSchedules))
    ensures DecodesRows(mt, Truncated(rows, numSchedules), decoded, LexLess)
  {
    var kept := Truncated(rows, numSchedules);
    assert kept == rows[..|kept|];
    LexOrder();
    decoded := DecodeSchedules(mt, kept, LexLess);
  }

  /**
   * get_schedules with the gameslot keys read as integers: the truncated
   * rows decoded in gameslot order, so that a row holding a full assignment
   * lists at position g the matchup the assignment places at gameslot g.
   */
  method GetSchedulesInGameslotOrder(mt: seq<seq<string>>, rows: seq<DbRow<nat>>, numSchedules: Registry.Option<int>)
    returns (decoded: seq<DecodedRow>)
    requires RowsFit(mt, rows)
    ensures RowsFit(mt, Truncated(rows, numSchedules))
    ensures DecodesRows(mt, Truncated(rows, numSchedules), decoded, NatLess)
    ensures forall k :: 0 <= k < |decoded| && |mt| >= NumGameslots
              && IsPermutation(Truncated(rows, numSchedules)[k].matchupsGameslot, NumGameslots)
              ==> |decoded[k].schedule| == NumGameslots
                  && forall i :: 0 <= i < NumGameslots ==>
                       decoded[k].schedule[Truncated(rows, numSchedules)[k].matchupsGameslot[i]] == mt[i]
  {
    var kept := Truncated(rows, numSchedules);
    assert kept == rows[..|kept|];
    NatOrder();
    decoded := DecodeSchedules(mt, kept, NatLess);
    forall k | 0 <= k < |decoded| && |mt| >= NumGameslots && IsPermutation(kept[k].matchupsGameslot, NumGameslots)
      ensures |decoded[k].schedule| == NumGameslots
      ensures forall i :: 0 <= i < NumGameslots ==> decoded[k].schedule[kept[k].matchupsGameslot[i]] == mt[i]
    {
      GameslotOrderAligns(mt, kept[k].matchupsGameslot, decoded[k].schedule);
    }
  }

  /** The day column of a gameslot header: Thursday, Sunday, Sunday night or Monday night. */
  datatype Day = TH | S | SN | MN

  /** A gameslot header: the week number (1 to 17) and the day. */
  datatype Header = Header(week: nat, day: Day)

  /** The day of game i of week w in the headers: the first is Thursday, the last two Sunday and Monday night. */
  function HeaderDay(w: nat, i: nat): Day
    requires w < NumWeeks && i < WeekSizes[w]
  {
    if i == 0 then TH
    else if i == WeekSizes[w] - 2 then SN
    else if i == WeekSizes[w] - 1 then MN
    else S
  }

  /** The headers of week w, one per gameslot of the week. */
  function WeekHeaders(w: nat): (hs: seq<Header>)
    requires w < NumWeeks
    ensures |hs| == WeekSizes[w]
  {
    assert 13 <= WeekSizes[w];
    seq(WeekSizes[w], i requires 0 <= i < WeekSizes[w] => Header(w + 1, HeaderDay(w, i)))
  }

  /** Within week w's headers, gameslot g's header carries g's week and its day in that week. */
  lemma WeekHeaderAt(w: nat, g: nat)
    requires w < NumWeeks && InWeek(g, w)
    ensures g < NumGameslots && WeekOf(g) == w
    ensures WeekHeaders(w)[g - Prefix(w)] == Header(WeekOf(g) + 1, HeaderDay(WeekOf(g), g - Prefix(WeekOf(g))))
  {
    SeasonLength();
    PrefixMonotone(w + 1, NumWeeks);
  }

  /** The headers of weeks 0 to w - 1. */
  function HeadersUpTo(w: nat): seq<Header>
    requires w <= NumWeeks
  {
    if w == 0 then [] else HeadersUpTo(w - 1) + WeekHeaders(w - 1)
  }

  /** One week's headers as the loop appends them: TH, size - 3 times S, SN, MN. */
  method AppendWeek(hs: seq<Header>, w: nat) returns (hs': seq<Header>)
    requires w < NumWeeks
    ensures hs' == hs + WeekHeaders(w)
  {
    assert 13 <= WeekSizes[w];
    hs' := hs + [Header(w + 1, TH)];
    for k := 0 to WeekSizes[w] - 3
      invariant hs' == hs + WeekHeaders(w)[..k + 1]
    {
      hs' := hs' + [Header(w + 1, S)];
    }
    hs' := hs' + [Header(w + 1, SN)];
    hs' := hs' + [Header(w + 1, MN)];
  }

  /** get_gameslot_headers: the headers of all weeks, week after week. */
  method GameslotHeaders() returns (hs: seq<Header>)
    ensures hs == HeadersUpTo(NumWeeks)
  {
    hs := [];
    for w := 0 to NumWeeks
      invariant hs == HeadersUpTo(w)
    {
      hs := AppendWeek(hs, w);
    }
  }

  /** The headers of weeks 0 to w - 1 fill their gameslots: Prefix(w) of them. */
  lemma {:induction false} HeadersUpToLength(w: nat)
    requires w <= NumWeeks
    ensures |HeadersUpTo(w)| == Prefix(w)
  {
    if w > 0 {
      HeadersUpToLength(w - 1);
    }
  }

  /**
   * The headers of weeks 0 to w - 1: the header of each of their gameslots
   * g carries the number of g's week and the day of g within it.
   */
  lemma {:induction false} HeaderAtUpTo(w: nat, g: nat)
    requires w <= NumWeeks && g < Prefix(w)
    ensures |HeadersUpTo(w)| == Prefix(w)
    ensures g < NumGameslots
    ensures HeadersUpTo(w)[g] == Header(WeekOf(g) + 1, HeaderDay(WeekOf(g), g - Prefix(WeekOf(g))))
  {
    HeadersUpToLength(w);
    HeadersUpToLength(w - 1);
    var p := HeadersUpTo(w - 1);
    var q := WeekHeaders(w - 1);
    assert HeadersUpTo(w) == p + q;
    if g < Prefix(w - 1) {
      HeaderAtUpTo(w - 1, g);
      ConcatIndex(p, q, g);
    } else {
      WeekHeaderAt(w - 1, g);
      ConcatIndex(p, q, g);
    }
  }

  lemma ConcatIndex<T>(p: seq<T>, q: seq<T>, i: nat)
    requires i < |p| + |q|
    ensures (p + q)[i] == if i < |p| then p[i] else q[i - |p|]
  {
  }

  /**
   * There is one header per gameslot, 256 in all, and the header of
   * gameslot g carries the number of g's week and the day of g within it.
   */
  lemma HeaderAt(g: nat)
    requires g < NumGameslots
    ensures |HeadersUpTo(NumWeeks)| == NumGameslots
    ensures HeadersUpTo(NumWeeks)[g] == Header(WeekOf(g) + 1, HeaderDay(WeekOf(g), g - Prefix(WeekOf(g))))
  {
    SeasonLength();
    HeaderAtUpTo(NumWeeks, g);
  }

  /** The headers are in week order: a later gameslot never carries an earlier week. */
  lemma HeadersInWeekOrder(g: nat, h: nat)
    requires g <= h < NumGameslots
    ensures |HeadersUpTo(NumWeeks)| == NumGameslots
    ensures HeadersUpTo(NumWeeks)[g].week <= HeadersUpTo(NumWeeks)[h].week
  {
    HeaderAt(g);
    HeaderAt(h);
    if WeekOf(h) < WeekOf(g) {
      PrefixMonotone(WeekOf(h) + 1, WeekOf(g));
    }
  }

  /**
   * Each week's headers hold one Thursday, one Sunday night and one Monday
   * night header and size - 3 Sunday headers.
   */
  lemma WeekHeaderCounts(w: nat)
    requires w < NumWeeks
    ensures multiset(WeekHeaders(w)) ==
      multiset{Header(w + 1, TH), Header(w + 1, SN), Header(w + 1, MN)} +
      multiset(seq(WeekSizes[w] - 3, _ => Header(w + 1, S)))
  {
    assert 13 <= WeekSizes[w];
    var n := WeekSizes[w];
    var middle := seq(n - 3, _ => Header(w + 1, S));
    assert WeekHeaders(w) == [Header(w + 1, TH)] + middle + [Header(w + 1, SN), Header(w + 1, MN)];
  }
}
