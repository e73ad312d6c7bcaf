/**
 * Pro keys: the `PRO-dddd-LLLL` format drawn at random, and the
 * command-line generator that adds up to `n` new keys with at most `5n`
 * draws. The random draws are a parameter: draw number `k` gives the four
 * digits and the four letters of the `k`-th key drawn.
 */
module ProKeys {
  import opened Common
  import opened Models

  /** The values `random.choices` picked: four decimal digits and four letters `A`..`Z` by position. */
  datatype Draw = Draw(digits: seq<int>, letters: seq<int>)

  predicate ValidDraw(d: Draw)
  {
    |d.digits| == 4 && |d.letters| == 4
    && (forall i :: 0 <= i < 4 ==> 0 <= d.digits[i] < 10)
    && (forall i :: 0 <= i < 4 ==> 0 <= d.letters[i] < 26)
  }

  function LetterChar(k: int): (c: char)
    requires 0 <= k < 26
    ensures IsAsciiUpper(c)
  {
    (('A' as int) + k) as char
  }

  /** `generate_cdkey()`: `f"PRO-{digits}-{letters}"`. */
  function KeyOf(d: Draw): string
    requires ValidDraw(d)
  {
    "PRO-" + seq(4, i requires 0 <= i < 4 => DigitChar(d.digits[i])) + "-"
    + seq(4, i requires 0 <= i < 4 => LetterChar(d.letters[i]))
  }

  /** The shape of a generated key: 13 characters, `PRO-`, four digits, `-`, four upper-case letters. */
  predicate KeyShape(s: string)
  {
    |s| == 13 && s[..4] == "PRO-" && s[8] == '-'
    && (forall i :: 4 <= i < 8 ==> IsDigit(s[i]))
    && (forall i :: 9 <= i < 13 ==> IsAsciiUpper(s[i]))
  }

  /** Reads the draw back from a key of the right shape. */
  function DrawOf(s: string): (r: Option<Draw>)
    ensures r.Some? ==> ValidDraw(r.value)
  {
    if KeyShape(s) then
      Some(Draw(seq(4, i requires 0 <= i < 4 => DigitValue(s[4 + i])),
                seq(4, i requires 0 <= i < 4 => (s[9 + i] as int) - ('A' as int))))
    else None
  }

  /** Every draw gives a key of the right shape, and the key gives the draw back. */
  lemma KeyRoundTrip(d: Draw)
    requires ValidDraw(d)
    ensures KeyShape(KeyOf(d)) && DrawOf(KeyOf(d)) == Some(d)
  {
    var s := KeyOf(d);
    assert forall i :: 0 <= i < 4 ==> s[4 + i] == DigitChar(d.digits[i]);
    assert forall i :: 0 <= i < 4 ==> s[9 + i] == LetterChar(d.letters[i]);
    assert s[..4] == "PRO-";
    var r := DrawOf(s).value;
    assert r.digits == d.digits;
    assert r.letters == d.letters;
  }

  /** Every string of the key shape is the key of the draw read from it. */
  lemma ShapeIsKey(s: string)
    requires KeyShape(s)
    ensures KeyOf(DrawOf(s).value) == s
  {
    var d := DrawOf(s).value;
    var k := KeyOf(d);
    assert |k| == 13;
    forall i | 0 <= i < 13 ensures k[i] == s[i] {
      if i < 4 {
        assert k[i] == "PRO-"[i] == s[..4][i];
      } else if 4 <= i < 8 {
        assert k[i] == DigitChar(d.digits[i - 4]);
      } else if 9 <= i {
        assert k[i] == LetterChar(d.letters[i - 9]);
      }
    }
  }

  /** Distinct draws give distinct keys. */
  lemma KeyOfInjective(d: Draw, e: Draw)
    requires ValidDraw(d) && ValidDraw(e) && KeyOf(d) == KeyOf(e)
    ensures d == e
  {
    KeyRoundTrip(d);
    KeyRoundTrip(e);
  }

  /** `db.query(ProKey).filter_by(key=key).first()` finds a row. */
  predicate HasKey(table: seq<ProKey>, key: string)
  {
    exists i :: 0 <= i < |table| && table[i].key == key
  }

  /** `filter_by(key=key).first()`: the position of the first row with the key. */
  function KeyIndex(table: seq<ProKey>, key: string): (r: Option<nat>)
    ensures r.Some? ==> r.value < |table| && table[r.value].key == key
    ensures r.None? <==> !HasKey(table, key)
    ensures r.Some? ==> forall j :: 0 <= j < r.value ==> table[j].key != key
  {
    if table == [] then None
    else if table[0].key == key then Some(0)
    else match KeyIndex(table[1..], key)
      case None =>
        assert forall i :: 1 <= i < |table| ==> table[i] == table[1..][i - 1];
        None
      case Some(k) => Some(k + 1)
  }

  /** `ProKey(key=key)`: unused, with no user and no time. */
  function NewKey(key: string): ProKey
  {
    ProKey(key, false, None, None)
  }

  /** No two rows share a key (the column is unique). */
  predicate UniqueKeys(table: seq<ProKey>)
  {
    forall i, j :: 0 <= i < j < |table| ==> table[i].key != table[j].key
  }

  /** The state of the generator: the table, and its `created` and `attempts` counters. */
  datatype Gen = Gen(table: seq<ProKey>, created: int, attempts: int)

  /** The bound `n * 5` on draws. */
  function DrawLimit(n: int): int
  {
    n * 5
  }

  /**
   * The `while created < n and attempts < n * 5` loop of `generate_pro_keys(n)`
   * as intended: each draw is checked against every row, the ones added
   * during the run included.
   */
  function Generate(g: Gen, n: int, draw: nat -> Draw): Gen
    requires 0 <= g.attempts
    requires forall k :: ValidDraw(draw(k))
    decreases DrawLimit(n) - g.attempts
  {
    if g.created < n && g.attempts < DrawLimit(n) then
      var key := KeyOf(draw(g.attempts));
      if HasKey(g.table, key) then Generate(Gen(g.table, g.created, g.attempts + 1), n, draw)
      else Generate(Gen(g.table + [NewKey(key)], g.created + 1, g.attempts + 1), n, draw)
    else g
  }

  /** `generate_pro_keys(n)`, with each draw checked against the rows added so far: `created` and `attempts` are the counters when the loop stops. */
  method GenerateProKeys(db: Db, n: int, draw: nat -> Draw) returns (created: int, attempts: int)
    requires forall k :: ValidDraw(draw(k))
    modifies db`proKeys
    ensures Gen(db.proKeys, created, attempts) == Generate(Gen(old(db.proKeys), 0, 0), n, draw)
  {
    created := 0;
    attempts := 0;
    while created < n && attempts < n * 5
      invariant 0 <= attempts
      invariant Generate(Gen(old(db.proKeys), 0, 0), n, draw) == Generate(Gen(db.proKeys, created, attempts), n, draw)
      decreases n * 5 - attempts
    {
      attempts := attempts + 1;
      var key := KeyOf(draw(attempts - 1));
      if HasKey(db.proKeys, key) {
        continue;
      }
      db.proKeys := db.proKeys + [NewKey(key)];
      created := created + 1;
    }
  }

  /**
   * The generator adds exactly `created` rows, at most one per draw;
   * `created` never passes `n`, `attempts` never passes `5n`, and the loop
   * stops only when one of the two bounds is reached.
   */
  lemma {:induction false} GenerateCounts(g: Gen, n: int, draw: nat -> Draw)
    requires 0 <= g.attempts
    requires forall k :: ValidDraw(draw(k))
    ensures Counted(g, Generate(g, n, draw), n)
    decreases DrawLimit(n) - g.attempts
  {
    if g.created < n && g.attempts < DrawLimit(n) {
      var key := KeyOf(draw(g.attempts));
      var next := if HasKey(g.table, key) then Gen(g.table, g.created, g.attempts + 1)
                  else Gen(g.table + [NewKey(key)], g.created + 1, g.attempts + 1);
      assert Generate(g, n, draw) == Generate(next, n, draw);
      GenerateCounts(next, n, draw);
      CountedStep(g, next, Generate(next, n, draw), n);
    }
  }

  /** The counters of a finished run `r` that started from `g`. */
  predicate Counted(g: Gen, r: Gen, n: int)
  {
    |r.table| - |g.table| == r.created - g.created
    && g.created <= r.created && r.created - g.created <= r.attempts - g.attempts
    && (g.attempts < DrawLimit(n) ==> r.attempts <= DrawLimit(n))
    && (g.attempts >= DrawLimit(n) ==> r.attempts == g.attempts)
    && (g.created < n ==> r.created <= n)
    && (g.created >= n ==> r.created == g.created)
    && (r.created >= n || r.attempts >= DrawLimit(n))
  }

  /** One draw inside both bounds, adding a row or not, keeps the counter relations. */
  lemma CountedStep(g: Gen, next: Gen, r: Gen, n: int)
    requires g.created < n && g.attempts < DrawLimit(n)
    requires next.attempts == g.attempts + 1
    requires (next.created == g.created && |next.table| == |g.table|)
             || (next.created == g.created + 1 && |next.table| == |g.table| + 1)
    requires Counted(next, r, n)
    ensures Counted(g, r, n)
  {
  }

  /** Row `i` is a new row of the key shape whose key was in no earlier row. */
  predicate FreshRow(r: seq<ProKey>, i: nat)
    requires i < |r|
  {
    KeyShape(r[i].key) && r[i] == NewKey(r[i].key) && !HasKey(r[..i], r[i].key)
  }

  /** `r` is `table` followed by fresh rows only. */
  predicate FreshExtension(table: seq<ProKey>, r: seq<ProKey>)
  {
    |table| <= |r| && r[..|table|] == table && forall i :: |table| <= i < |r| ==> FreshRow(r, i)
  }

  /**
   * The generator leaves the rows it found in place; each row it adds is an
   * unused key of the key shape that was in no row when it was checked.
   */
  lemma {:induction false} GenerateRows(g: Gen, n: int, draw: nat -> Draw)
    requires 0 <= g.attempts
    requires forall k :: ValidDraw(draw(k))
    ensures FreshExtension(g.table, Generate(g, n, draw).table)
    decreases DrawLimit(n) - g.attempts
  {
    if g.created < n && g.attempts < DrawLimit(n) {
      var key := KeyOf(draw(g.attempts));
      var next := if HasKey(g.table, key) then Gen(g.table, g.created, g.attempts + 1)
                  else Gen(g.table + [NewKey(key)], g.created + 1, g.attempts + 1);
      assert Generate(g, n, draw) == Generate(next, n, draw);
      GenerateRows(next, n, draw);
      if !HasKey(g.table, key) {
        KeyRoundTrip(draw(g.attempts));
        FreshStep(g.table, key, Generate(next, n, draw).table);
      }
    }
  }

  /** A fresh extension of the table with one fresh row added is a fresh extension of the table. */
  lemma FreshStep(table: seq<ProKey>, key: string, r: seq<ProKey>)
    requires !HasKey(table, key) && KeyShape(key)
    requires FreshExtension(table + [NewKey(key)], r)
    ensures FreshExtension(table, r)
  {
    AddedRow(table, key, r);
    forall i | |table| <= i < |r| ensures FreshRow(r, i) {
      if i == |table| {
        assert r[..i] == table;
      }
    }
  }

  /** The row added for an absent key is the one right after the old table. */
  lemma AddedRow(table: seq<ProKey>, key: string, r: seq<ProKey>)
    requires |table| + 1 <= |r| && r[..|table| + 1] == table + [NewKey(key)]
    ensures r[..|table|] == table && r[|table|] == NewKey(key)
  {
    assert r[..|table|] == r[..|table| + 1][..|table|];
    assert r[|table|] == r[..|table| + 1][|table|];
  }

  /** Rows added with keys absent from every earlier row keep the keys unique. */
  lemma FreshKeepsUnique(table: seq<ProKey>, r: seq<ProKey>)
    requires |table| <= |r| && r[..|table|] == table && UniqueKeys(table)
    requires forall i :: |table| <= i < |r| ==> !HasKey(r[..i], r[i].key)
    ensures UniqueKeys(r)
  {
    forall i, j | 0 <= i < j < |r| ensures r[i].key != r[j].key {
      if j < |table| {
        assert r[i] == table[i] && r[j] == table[j];
      } else {
        assert r[..j][i] == r[i];
      }
    }
  }

  /** The table after `generate_pro_keys(n)`, with its counters, from the start of the loop. */
  lemma GenerateFromStart(table: seq<ProKey>, n: int, draw: nat -> Draw)
    requires forall k :: ValidDraw(draw(k))
    ensures var r := Generate(Gen(table, 0, 0), n, draw);
      |table| <= |r.table| && r.table[..|table|] == table && |r.table| == |table| + r.created
      && 0 <= r.created <= r.attempts && r.attempts <= (if n > 0 then DrawLimit(n) else 0)
      && r.created <= (if n > 0 then n else 0)
    ensures UniqueKeys(table) ==> UniqueKeys(Generate(Gen(table, 0, 0), n, draw).table)
  {
    GenerateCounts(Gen(table, 0, 0), n, draw);
    GenerateRows(Gen(table, 0, 0), n, draw);
    var r := Generate(Gen(table, 0, 0), n, draw);
    if UniqueKeys(table) {
      forall i | |table| <= i < |r.table| ensures !HasKey(r.table[..i], r.table[i].key) {
        assert FreshRow(r.table, i);
      }
      FreshKeepsUnique(table, r.table);
    }
  }

  /**
   * The loop as the code runs it: the session does not flush before a
   * query, so each draw is checked only against the rows `stored` before
   * the run, never against the rows the run has added.
   */
  function GenerateUnflushed(stored: seq<ProKey>, g: Gen, n: int, draw: nat -> Draw): (r: Gen)
    requires 0 <= g.attempts
    requires forall k :: ValidDraw(draw(k))
    ensures |g.table| <= |r.table| && r.table[..|g.table|] == g.table
    ensures forall j :: |g.table| <= j < |r.table| ==> !HasKey(stored, r.table[j].key)
    decreases DrawLimit(n) - g.attempts
  {
    if g.created < n && g.attempts < DrawLimit(n) then
      var key := KeyOf(draw(g.attempts));
      if HasKey(stored, key) then GenerateUnflushed(stored, Gen(g.table, g.created, g.attempts + 1), n, draw)
      else GenerateUnflushed(stored, Gen(g.table + [NewKey(key)], g.created + 1, g.attempts + 1), n, draw)
    else g
  }

  /** The draw of the key `PRO-0000-AAAA`. */
  const ZeroDraw := Draw([0, 0, 0, 0], [0, 0, 0, 0])

  /**
   * Two draws of the same key on an empty table with `n = 2`: as written,
   * both are added, so the rows to commit repeat a key of the unique column;
   * checked against the rows added so far, the keys stay unique.
   */
  lemma UnflushedDuplicate()
    ensures var r := GenerateUnflushed([], Gen([], 0, 0), 2, (k: nat) => ZeroDraw).table;
      |r| == 2 && r[0] == r[1] && !UniqueKeys(r)
    ensures UniqueKeys(Generate(Gen([], 0, 0), 2, (k: nat) => ZeroDraw).table)
  {
    var draw := (k: nat) => ZeroDraw;
    var key := KeyOf(ZeroDraw);
    var g1 := Gen([NewKey(key)], 1, 1);
    assert GenerateUnflushed([], Gen([], 0, 0), 2, draw) == GenerateUnflushed([], g1, 2, draw);
    assert GenerateUnflushed([], g1, 2, draw) == Gen([NewKey(key), NewKey(key)], 2, 2);
    GenerateFromStart([], 2, draw);
  }
}
