/** The functions of BaseLib/CipherBlowfish.cpp on the global tables bf_P and bf_S, which the source writes out a second
    time, and their agreement with the ones on a matrix. */
module BlowfishGlobals {
  import opened BlowfishStandard
  import opened CipherBlowfish
  import opened Memory
  import opened Words

  class BlowfishGlobals {
    const bf_P: array<Word>
    const bf_S: array2<Word>

    ghost predicate Shape()
    {
      AreTables(bf_P, bf_S)
    }

    ghost function Contents(): (t: Tables)
      requires Shape()
      reads bf_P, bf_S
      ensures Wf(t)
    {
      TablesOf(bf_P, bf_S)
    }

    constructor ()
      ensures Shape() && fresh(bf_P) && fresh(bf_S)
    {
      bf_P := new Word[ROUNDS + 2](_ => 0);
      bf_S := new Word[4, 256]((_, _) => 0);
    }

    /** Blowfish_encipher. */
    method Encipher(xl: Word, xr: Word) returns (l: Word, r: Word)
      requires Shape()
      ensures Halves(l, r) == BlowfishStandard.Encipher(Contents(), Halves(xl, xr))
    {
      hide Xor, InRound, F, Boxes, Wf;
      ghost var t, h := Contents(), Halves(xl, xr);
      var Xl, Xr := xl, xr;
      Xl := Xor(Xl, bf_P[0]);
      Started(t, h);
      Xr := RoundWith(bf_P, bf_S, Xr, Xl, 1, t, h, 0);
      Xl := RoundWith(bf_P, bf_S, Xl, Xr, 2, t, h, 1);
      Xr := RoundWith(bf_P, bf_S, Xr, Xl, 3, t, h, 2);
      Xl := RoundWith(bf_P, bf_S, Xl, Xr, 4, t, h, 3);
      Xr := RoundWith(bf_P, bf_S, Xr, Xl, 5, t, h, 4);
      Xl := RoundWith(bf_P, bf_S, Xl, Xr, 6, t, h, 5);
      Xr := RoundWith(bf_P, bf_S, Xr, Xl, 7, t, h, 6);
      Xl := RoundWith(bf_P, bf_S, Xl, Xr, 8, t, h, 7);
      Xr := RoundWith(bf_P, bf_S, Xr, Xl, 9, t, h, 8);
      Xl := RoundWith(bf_P, bf_S, Xl, Xr, 10, t, h, 9);
      Xr := RoundWith(bf_P, bf_S, Xr, Xl, 11, t, h, 10);
      Xl := RoundWith(bf_P, bf_S, Xl, Xr, 12, t, h, 11);
      Xr := RoundWith(bf_P, bf_S, Xr, Xl, 13, t, h, 12);
      Xl := RoundWith(bf_P, bf_S, Xl, Xr, 14, t, h, 13);
      Xr := RoundWith(bf_P, bf_S, Xr, Xl, 15, t, h, 14);
      Xl := RoundWith(bf_P, bf_S, Xl, Xr, 16, t, h, 15);
      Finished(t, h, Xl, Xr);
      Xr := Xor(Xr, bf_P[17]);
      l, r := Xr, Xl;
    }

    /** Blowfish_decipher. */
    method Decipher(xl: Word, xr: Word) returns (l: Word, r: Word)
      requires Shape()
      ensures Halves(l, r) == BlowfishStandard.Decipher(Contents(), Halves(xl, xr))
    {
      hide Xor, InRound, F, Boxes, Wf, BlowfishStandard.Encipher;
      ghost var t, h := Backwards(Contents()), Halves(xl, xr);
      var Xl, Xr := xl, xr;
      Xl := Xor(Xl, bf_P[17]);
      Started(t, h);
      Xr := RoundWith(bf_P, bf_S, Xr, Xl, 16, t, h, 0);
      Xl := RoundWith(bf_P, bf_S, Xl, Xr, 15, t, h, 1);
      Xr := RoundWith(bf_P, bf_S, Xr, Xl, 14, t, h, 2);
      Xl := RoundWith(bf_P, bf_S, Xl, Xr, 13, t, h, 3);
      Xr := RoundWith(bf_P, bf_S, Xr, Xl, 12, t, h, 4);
      Xl := RoundWith(bf_P, bf_S, Xl, Xr, 11, t, h, 5);
      Xr := RoundWith(bf_P, bf_S, Xr, Xl, 10, t, h, 6);
      Xl := RoundWith(bf_P, bf_S, Xl, Xr, 9, t, h, 7);
      Xr := RoundWith(bf_P, bf_S, Xr, Xl, 8, t, h, 8);
      Xl := RoundWith(bf_P, bf_S, Xl, Xr, 7, t, h, 9);
      Xr := RoundWith(bf_P, bf_S, Xr, Xl, 6, t, h, 10);
      Xl := RoundWith(bf_P, bf_S, Xl, Xr, 5, t, h, 11);
      Xr := RoundWith(bf_P, bf_S, Xr, Xl, 4, t, h, 12);
      Xl := RoundWith(bf_P, bf_S, Xl, Xr, 3, t, h, 13);
      Xr := RoundWith(bf_P, bf_S, Xr, Xl, 2, t, h, 14);
      Xl := RoundWith(bf_P, bf_S, Xl, Xr, 1, t, h, 15);
      Finished(t, h, Xl, Xr);
      Xr := Xor(Xr, bf_P[0]);
      l, r := Xr, Xl;
    }

    method ReplaceSubkeys(ghost c: Setup) returns (datal: Word, datar: Word)
      requires Shape() && c == Setup(Contents(), Halves(0, 0))
      modifies bf_P
      ensures Setup(Contents(), Halves(datal, datar)) == Subkeys(c, ROUNDS / 2 + 1)
    {
      hide BlowfishStandard.Encipher, Wf;
      datal, datar := 0, 0;
      var i := 0;
      while i < ROUNDS + 2
        invariant 0 <= i <= ROUNDS + 2 && i % 2 == 0
        invariant Setup(Contents(), Halves(datal, datar)) == Subkeys(c, i / 2)
      {
        datal, datar := Encipher(datal, datar);
        bf_P[i] := datal;
        bf_P[i + 1] := datar;
        i := i + 2;
      }
    }

    method ReplacePair(i: nat, j: nat, l: Word, r: Word) returns (datal: Word, datar: Word)
      requires Shape() && i < 4 && j < 255 && j % 2 == 0
      modifies bf_S
      ensures Setup(Contents(), Halves(datal, datar))
              == NextEntries(old(Setup(Contents(), Halves(l, r))), 128 * i + j / 2)
    {
      hide BlowfishStandard.Encipher, Wf, Boxes;
      assert (128 * i + j / 2) / 128 == i && 2 * ((128 * i + j / 2) % 128) == j;
      datal, datar := Encipher(l, r);
      StorePair(bf_S, i, j, datal, datar);
    }

    method ReplaceEntries(ghost c: Setup, l: Word, r: Word)
      requires Shape() && c == Setup(Contents(), Halves(l, r))
      modifies bf_S
      ensures Contents() == Entries(c, 512).t
    {
      hide NextEntries, Wf, TablesOf;
      var datal, datar := l, r;
      for i := 0 to 4
        invariant Setup(Contents(), Halves(datal, datar)) == Entries(c, 128 * i)
      {
        var j := 0;
        while j < 256
          invariant 0 <= j <= 256 && j % 2 == 0
          invariant Setup(Contents(), Halves(datal, datar)) == Entries(c, 128 * i + j / 2)
        {
          EntriesNext(c, i, j);
          datal, datar := ReplacePair(i, j, datal, datar);
          j := j + 2;
        }
      }
    }

    /** InitializeBlowfish. */
    method Initialize(source: Tables, key: seq<Byte>, keybytes: int) returns (ok: bool)
      requires Shape() && Wf(source) && Magnitude(keybytes) <= |key|
      modifies bf_P, bf_S
      ensures ok <==> keybytes != 0
      ensures Contents() == if ok then Scheduled(source, key[..Magnitude(keybytes)]) else source
    {
      hide Entries, Subkeys, Keyed, TablesOf, Wf;
      Load(bf_P, bf_S, source);
      if keybytes == 0 {
        return false;
      }
      MixKey(bf_P, bf_S, key[..Magnitude(keybytes)], keybytes, source);
      ghost var c := Setup(Contents(), Halves(0, 0));
      var datal, datar := ReplaceSubkeys(c);
      ReplaceEntries(Subkeys(c, ROUNDS / 2 + 1), datal, datar);
      return true;
    }
  }

  /** InitializeBlowfish and InitializeBlowfishLocal build identical tables from every key, and a block enciphered with
      the ones is deciphered with the others. */
  method TwoInitializers(source: Tables, key: seq<Byte>, keybytes: int, a: BlowfishGlobals, b: BlowfishMatrix,
                         xl: Word, xr: Word)
    returns (l: Word, r: Word)
    requires a.Shape() && b.Shape() && a.bf_P != b.P && a.bf_S != b.S && Wf(source)
    requires Magnitude(keybytes) <= |key|
    modifies a.bf_P, a.bf_S, b.P, b.S
    ensures a.Contents() == b.Contents()
    ensures l == xl && r == xr
  {
    hide Scheduled, Wf, TablesOf, Encipher, Decipher;
    var ok := a.Initialize(source, key, keybytes);
    ok := b.Initialize(source, key, keybytes);
    DecipherUndoes(a.Contents(), Halves(xl, xr));
    l, r := a.Encipher(xl, xr);
    l, r := b.Decipher(l, r);
  }
}
