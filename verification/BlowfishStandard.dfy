/** Blowfish as its designer describes it: sixteen rounds over two halves that change places, a cipher function
    through four S-boxes, and a key schedule that runs the cipher on itself. */
module BlowfishStandard {
  import opened Memory
  import opened Words

  const ROUNDS: nat := 16

  /** The subkeys and the S-boxes. */
  datatype Tables = Tables(p: seq<Word>, s: seq<seq<Word>>)

  predicate Wf(t: Tables)
  {
    && |t.p| == ROUNDS + 2 && |t.s| == 4
    && forall i :: 0 <= i < 4 ==> |t.s[i]| == 256
  }

  datatype Halves = Halves(left: Word, right: Word)

  /** The four bytes of a word as indices, the most significant one first. */
  function Quarter(x: Word, i: nat): (n: nat)
    requires i < 4
    ensures n < 256
  {
    ByteOf(x, 3 - i) as nat
  }

  function F(t: Tables, x: Word): Word
    requires Wf(t)
  {
    Add(Xor(Add(t.s[0][Quarter(x, 0)], t.s[1][Quarter(x, 1)]), t.s[2][Quarter(x, 2)]), t.s[3][Quarter(x, 3)])
  }

  /** Round `i`, with the exchange of the halves at its end. */
  function Round(t: Tables, h: Halves, i: nat): Halves
    requires Wf(t) && i < ROUNDS
  {
    var left := Xor(h.left, t.p[i]);
    Halves(Xor(h.right, F(t, left)), left)
  }

  function Rounds(t: Tables, h: Halves, n: nat): Halves
    requires Wf(t) && n <= ROUNDS
  {
    if n == 0 then h else Round(t, Rounds(t, h, n - 1), n - 1)
  }

  /** Sixteen rounds; the last exchange is undone and the last two subkeys are applied. */
  function Encipher(t: Tables, h: Halves): Halves
    requires Wf(t)
  {
    var e := Rounds(t, h, ROUNDS);
    Halves(Xor(e.right, t.p[ROUNDS + 1]), Xor(e.left, t.p[ROUNDS]))
  }

  function Backwards(t: Tables): (r: Tables)
    requires Wf(t)
    ensures Wf(r)
  {
    t.(p := seq(ROUNDS + 2, i requires 0 <= i < ROUNDS + 2 => t.p[ROUNDS + 1 - i]))
  }

  /** Deciphering uses the subkeys in reverse order. */
  function Decipher(t: Tables, h: Halves): Halves
    requires Wf(t)
  {
    Encipher(Backwards(t), h)
  }

  // ---- deciphering undoes enciphering ----

  /** The halves on the way back: those on the way out, exchanged, each under its subkey. */
  function Masked(t: Tables, h: Halves, n: nat): Halves
    requires Wf(t) && n <= ROUNDS
  {
    var e := Rounds(t, h, n);
    Halves(Xor(e.right, t.p[n + 1]), Xor(e.left, t.p[n]))
  }

  lemma RoundBack(t: Tables, h: Halves, n: nat)
    requires Wf(t) && n < ROUNDS
    ensures Round(Backwards(t), Masked(t, h, n + 1), ROUNDS - 1 - n) == Masked(t, h, n)
  {
    hide F, Xor;
    var e, back := Rounds(t, h, n), Backwards(t);
    var left := Xor(e.left, t.p[n]);
    assert Rounds(t, h, n + 1) == Halves(Xor(e.right, F(t, left)), left);
    assert back.p[ROUNDS - 1 - n] == t.p[n + 2];
    XorTwice(left, t.p[n + 2]);
    SameF(t, left);
    SwapMasks(e.right, F(t, left), t.p[n + 1]);
  }

  lemma SameF(t: Tables, x: Word)
    requires Wf(t)
    ensures F(Backwards(t), x) == F(t, x)
  {
  }

  lemma SwapMasks(a: Word, f: Word, p: Word)
    ensures Xor(Xor(Xor(a, f), p), f) == Xor(a, p)
  {
    hide Xor;
    XorExchange(Xor(a, f), p, f);
    XorTwice(a, f);
  }

  lemma {:induction false} RoundsBack(t: Tables, h: Halves, n: nat)
    requires Wf(t) && n <= ROUNDS
    ensures Rounds(Backwards(t), Encipher(t, h), n) == Masked(t, h, ROUNDS - n)
  {
    hide Round, Backwards, Xor;
    if n > 0 {
      RoundsBack(t, h, n - 1);
      RoundBack(t, h, ROUNDS - n);
    }
  }

  /** For all subkeys and S-boxes, and every block. */
  lemma DecipherUndoes(t: Tables, h: Halves)
    requires Wf(t)
    ensures Decipher(t, Encipher(t, h)) == h
  {
    hide Round, Xor;
    RoundsBack(t, h, ROUNDS);
    var e := Masked(t, h, 0);
    assert Rounds(t, h, 0) == h;
    assert Backwards(t).p[ROUNDS + 1] == t.p[0] && Backwards(t).p[ROUNDS] == t.p[1];
    XorTwice(h.left, t.p[0]);
    XorTwice(h.right, t.p[1]);
  }

  // ---- what the round function and the rounds are ----

  /** The first index is the most significant byte. */
  lemma QuarterOf(b0: Byte, b1: Byte, b2: Byte, b3: Byte)
    ensures var x := WordOf(b3, b2, b1, b0);
            && Quarter(x, 0) == b0 as nat && Quarter(x, 1) == b1 as nat
            && Quarter(x, 2) == b2 as nat && Quarter(x, 3) == b3 as nat
  {
    hide WordOf, ByteOf;
    var x := WordOf(b3, b2, b1, b0);
    BytesRoundTrip(b3, b2, b1, b0);
    assert WordBytes(x)[0] == b3 && WordBytes(x)[1] == b2 && WordBytes(x)[2] == b1 && WordBytes(x)[3] == b0;
  }

  lemma ZeroLeft(a: Word)
    ensures Xor(0, a) == Xor(a, 0) == a && Add(0, a) == Add(a, 0) == a
  {
  }

  /** A box whose entry is the only one that is not zero shows it. */
  lemma OneBox(t: Tables, x: Word, k: nat)
    requires Wf(t) && k < 4
    requires forall i :: 0 <= i < 4 && i != k ==> t.s[i][Quarter(x, i)] == 0
    ensures F(t, x) == t.s[k][Quarter(x, k)]
  {
    hide Quarter, Add, Xor;
    ZeroLeft(0);
    ZeroLeft(t.s[k][Quarter(x, k)]);
  }

  /** Four entries for which addition, exclusive or and addition, in this order, give another result than in any other
      order. */
  lemma FInOrder(t: Tables, x: Word)
    requires Wf(t) && t.s[0][Quarter(x, 0)] == t.s[3][Quarter(x, 3)] == 0xffff_ffff
    requires t.s[1][Quarter(x, 1)] == 2 && t.s[2][Quarter(x, 2)] == 3
    ensures F(t, x) == 1
  {
    hide Quarter;
  }

  /** `n` subkeys, every other one from `i` on, joined by exclusive or. */
  function Joined(p: seq<Word>, i: nat, n: nat): Word
    requires n > 0 ==> i + 2 * n - 2 < |p|
  {
    if n == 0 then 0 else Xor(Joined(p, i, n - 1), p[i + 2 * n - 2])
  }

  ghost predicate ZeroBoxes(t: Tables)
    requires Wf(t)
  {
    forall i, j :: 0 <= i < 4 && 0 <= j < 256 ==> t.s[i][j] == 0
  }

  lemma ZeroF(t: Tables, x: Word)
    requires Wf(t) && ZeroBoxes(t)
    ensures F(t, x) == 0
  {
    hide Quarter, Xor, Add;
    ZeroLeft(0);
  }

  /** Two rounds without S-boxes. */
  lemma {:induction false} ZeroRounds(t: Tables, h: Halves, n: nat)
    requires Wf(t) && ZeroBoxes(t) && n <= ROUNDS / 2
    ensures Rounds(t, h, 2 * n) == Halves(Xor(h.left, Joined(t.p, 0, n)), Xor(h.right, Joined(t.p, 1, n)))
  {
    hide F, Xor, ZeroBoxes;
    if n == 0 {
      ZeroLeft(h.left);
      ZeroLeft(h.right);
    } else {
      ZeroRounds(t, h, n - 1);
      var e := Rounds(t, h, 2 * n - 2);
      var left, right := Xor(e.left, t.p[2 * n - 2]), Xor(e.right, t.p[2 * n - 1]);
      ZeroF(t, left);
      ZeroF(t, right);
      ZeroLeft(e.right);
      ZeroLeft(left);
      assert Rounds(t, h, 2 * n - 1) == Halves(e.right, left);
      assert Rounds(t, h, 2 * n) == Halves(left, right);
      XorAssociates(h.left, Joined(t.p, 0, n - 1), t.p[2 * n - 2]);
      XorAssociates(h.right, Joined(t.p, 1, n - 1), t.p[2 * n - 1]);
    }
  }

  /** With S-boxes of zeros only the subkeys are left: the even ones on the left half, the odd ones on the
      right, and the halves have changed places. */
  lemma SubkeysOnly(t: Tables, h: Halves)
    requires Wf(t) && ZeroBoxes(t)
    ensures Encipher(t, h) == Halves(Xor(h.right, Joined(t.p, 1, 9)), Xor(h.left, Joined(t.p, 0, 9)))
  {
    hide F, Xor, ZeroBoxes, Rounds;
    ZeroRounds(t, h, 8);
    XorAssociates(h.left, Joined(t.p, 0, 8), t.p[ROUNDS]);
    XorAssociates(h.right, Joined(t.p, 1, 8), t.p[ROUNDS + 1]);
  }

  // ---- the key schedule ----

  /** The key bytes taken in a circle, four to a word, the first one most significant. */
  function KeyWord(key: seq<Byte>, i: nat): Word
    requires key != []
  {
    WordOf(key[(4 * i + 3) % |key|], key[(4 * i + 2) % |key|], key[(4 * i + 1) % |key|], key[4 * i % |key|])
  }

  function Keyed(source: Tables, key: seq<Byte>): (t: Tables)
    requires Wf(source) && key != []
    ensures Wf(t)
  {
    source.(p := seq(ROUNDS + 2, i requires 0 <= i < ROUNDS + 2 => Xor(source.p[i], KeyWord(key, i))))
  }

  /** The tables under construction and the last output of the cipher. */
  datatype Setup = Setup(t: Tables, h: Halves)

  function NextSubkeys(c: Setup, n: nat): (r: Setup)
    requires Wf(c.t) && n < ROUNDS / 2 + 1
    ensures Wf(r.t)
  {
    var h := Encipher(c.t, c.h);
    Setup(c.t.(p := c.t.p[2 * n := h.left][2 * n + 1 := h.right]), h)
  }

  function Subkeys(c: Setup, n: nat): (r: Setup)
    requires Wf(c.t) && n <= ROUNDS / 2 + 1
    ensures Wf(r.t)
  {
    if n == 0 then c else NextSubkeys(Subkeys(c, n - 1), n - 1)
  }

  function NextEntries(c: Setup, n: nat): (r: Setup)
    requires Wf(c.t) && n < 512
    ensures Wf(r.t)
  {
    var h, i, j := Encipher(c.t, c.h), n / 128, 2 * (n % 128);
    Setup(c.t.(s := c.t.s[i := c.t.s[i][j := h.left][j + 1 := h.right]]), h)
  }

  function Entries(c: Setup, n: nat): (r: Setup)
    requires Wf(c.t) && n <= 512
    ensures Wf(r.t)
  {
    if n == 0 then c else NextEntries(Entries(c, n - 1), n - 1)
  }

  /** Every subkey and every S-box entry replaced in turn by the cipher's output, starting from a zero block. */
  function Scheduled(source: Tables, key: seq<Byte>): (t: Tables)
    requires Wf(source) && key != []
    ensures Wf(t)
  {
    Entries(Subkeys(Setup(Keyed(source, key), Halves(0, 0)), ROUNDS / 2 + 1), 512).t
  }

  // ---- what the key schedule leaves ----

  lemma {:induction false} SubkeysKept(c: Setup, m: nat, n: nat)
    requires Wf(c.t) && m < n <= ROUNDS / 2 + 1
    ensures Subkeys(c, n).t.p[2 * m] == Subkeys(c, m + 1).h.left
    ensures Subkeys(c, n).t.p[2 * m + 1] == Subkeys(c, m + 1).h.right
  {
    hide Encipher;
    if m + 1 < n {
      SubkeysKept(c, m, n - 1);
    }
  }

  /** A pair of entries stays as it is while the pair in another place is replaced. */
  lemma OtherPair(c: Setup, i: nat, j: nat, n: nat)
    requires Wf(c.t) && n < 512 && i < 4 && j < 128 && (i != n / 128 || j != n % 128)
    ensures NextEntries(c, n).t.s[i][2 * j] == c.t.s[i][2 * j]
    ensures NextEntries(c, n).t.s[i][2 * j + 1] == c.t.s[i][2 * j + 1]
  {
    hide Encipher;
  }

  lemma {:induction false} EntriesKept(c: Setup, m: nat, n: nat)
    requires Wf(c.t) && m < n <= 512
    ensures Entries(c, n).t.s[m / 128][2 * (m % 128)] == Entries(c, m + 1).h.left
    ensures Entries(c, n).t.s[m / 128][2 * (m % 128) + 1] == Entries(c, m + 1).h.right
  {
    hide Encipher;
    if m + 1 < n {
      hide NextEntries;
      EntriesKept(c, m, n - 1);
      OtherPair(Entries(c, n - 1), m / 128, m % 128, n - 1);
    }
  }

  lemma {:induction false} EntriesLeaveSubkeys(c: Setup, n: nat)
    requires Wf(c.t) && n <= 512
    ensures Entries(c, n).t.p == c.t.p
  {
    hide Encipher;
    if n > 0 {
      EntriesLeaveSubkeys(c, n - 1);
    }
  }

  /** The state of the schedule after `n` encipherments. */
  function Stage(source: Tables, key: seq<Byte>, n: nat): (c: Setup)
    requires Wf(source) && key != [] && n <= 521
    ensures Wf(c.t)
  {
    var start := Setup(Keyed(source, key), Halves(0, 0));
    if n <= 9 then Subkeys(start, n) else Entries(Subkeys(start, 9), n - 9)
  }

  lemma NextBlock(c: Setup, n: nat)
    requires Wf(c.t)
    ensures n < 9 ==> Subkeys(c, n + 1).h == Encipher(Subkeys(c, n).t, Subkeys(c, n).h)
    ensures n < 512 ==> Entries(c, n + 1).h == Encipher(Entries(c, n).t, Entries(c, n).h)
    ensures Subkeys(c, 0) == Entries(c, 0) == c
  {
    hide Encipher;
  }

  /** The schedule is a chain of 521 encipherments that starts from a block of zeros: each one takes the block
      before it and the tables as they are by then. */
  lemma ScheduleChain(source: Tables, key: seq<Byte>, n: nat)
    requires Wf(source) && key != [] && n < 521
    ensures Stage(source, key, 0).h == Halves(0, 0) && Stage(source, key, 0).t == Keyed(source, key)
    ensures var c := Stage(source, key, n); Stage(source, key, n + 1).h == Encipher(c.t, c.h)
  {
    hide Encipher, Keyed, Subkeys, Entries;
    var start := Setup(Keyed(source, key), Halves(0, 0));
    NextBlock(start, n);
    if n >= 9 {
      NextBlock(Subkeys(start, 9), n - 9);
    }
  }

  /** The first nine blocks of the chain are the new subkeys, the others the new S-boxes, in order. */
  lemma ScheduleIsChain(source: Tables, key: seq<Byte>, n: nat)
    requires Wf(source) && key != [] && n < 521
    ensures var t, h := Scheduled(source, key), Stage(source, key, n + 1).h;
            && (n < 9 ==> t.p[2 * n] == h.left && t.p[2 * n + 1] == h.right)
            && (9 <= n ==> var m := n - 9;
                           && t.s[m / 128][2 * (m % 128)] == h.left
                           && t.s[m / 128][2 * (m % 128) + 1] == h.right)
  {
    hide Encipher, Keyed, Subkeys, Entries;
    var start := Setup(Keyed(source, key), Halves(0, 0));
    EntriesLeaveSubkeys(Subkeys(start, 9), 512);
    if n < 9 {
      SubkeysKept(start, n, 9);
    } else {
      EntriesKept(Subkeys(start, 9), n - 9, 512);
      StageOfEntries(source, key, n);
    }
  }

  lemma StageOfEntries(source: Tables, key: seq<Byte>, n: nat)
    requires Wf(source) && key != [] && 9 <= n < 521
    ensures Stage(source, key, n + 1) == Entries(Subkeys(Setup(Keyed(source, key), Halves(0, 0)), 9), n - 8)
  {
    hide Encipher, Keyed, Subkeys, Entries;
  }

  lemma ModuloOfSum(a: nat, k: nat, n: nat)
    requires n > 0
    ensures (a % n + k) % n == (a + k) % n
  {
    ModuloPlus(a % n + k, n, a / n);
    assert a + k == a % n + k + n * (a / n);
  }

  lemma {:induction false} ModuloPlus(a: nat, n: nat, q: nat)
    requires n > 0
    ensures (a + n * q) % n == a % n
  {
    if q > 0 {
      ModuloPlus(a, n, q - 1);
      assert n * q == n * (q - 1) + n;
      ModuloOnce(a + n * (q - 1), n);
    }
  }

  lemma ModuloOnce(a: nat, n: nat)
    requires n > 0
    ensures (a + n) % n == a % n
  {
    Remainder(a + n, n, a / n + 1, a % n);
  }

  /** The remainder is the only one in range. */
  lemma Remainder(x: nat, n: nat, q: nat, r: nat)
    requires n > 0 && r < n && x == n * q + r
    ensures x % n == r
  {
    var q', r' := x / n, x % n;
    assert n * q + r == n * q' + r';
    if q > q' {
      Product(n, q, q');
    } else if q < q' {
      Product(n, q', q);
    }
  }

  lemma {:induction false} Product(n: nat, a: nat, b: nat)
    requires a > b
    ensures n * a >= n * b + n
  {
    assert n * a == n * (a - 1) + n;
    if a > b + 1 {
      Product(n, a - 1, b);
    }
  }

  lemma DoubledModulo(n: nat, d: nat, k: nat)
    requires n > 0 && d == n + n
    ensures k % d < d && k % n == if k % d < n then k % d else k % d - n
  {
    var m, q := k % d, k / d;
    Division(k, d);
    Doubled(n, d, q);
    if m < n {
      Remainder(k, n, 2 * q, m);
    } else {
      Remainder(k, n, 2 * q + 1, m - n);
    }
  }

  lemma Division(k: nat, d: nat)
    requires d > 0
    ensures k == d * (k / d) + k % d && 0 <= k % d < d && k / d >= 0
  {
  }

  lemma Doubled(n: nat, d: nat, q: nat)
    requires d == n + n
    ensures d * q == n * (2 * q) && d * q + n == n * (2 * q + 1)
  {
  }

  lemma RepeatedAt(key: seq<Byte>, k: nat)
    requires key != []
    ensures (key + key)[k % |key + key|] == key[k % |key|]
  {
    DoubledModulo(|key|, |key + key|, k);
  }

  /** A key written twice is the same key. */
  lemma RepeatedKey(source: Tables, key: seq<Byte>)
    requires Wf(source) && key != []
    ensures Scheduled(source, key + key) == Scheduled(source, key)
  {
    hide Entries, Subkeys;
    forall i | 0 <= i < ROUNDS + 2
      ensures KeyWord(key + key, i) == KeyWord(key, i)
    {
      RepeatedAt(key, 4 * i);
      RepeatedAt(key, 4 * i + 1);
      RepeatedAt(key, 4 * i + 2);
      RepeatedAt(key, 4 * i + 3);
    }
    assert Keyed(source, key + key) == Keyed(source, key);
  }
}
