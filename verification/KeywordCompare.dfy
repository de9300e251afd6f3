/** The COMPARE_n macros that KeywordLookupGenerator.py emits in front of the
    generated matcher, for every target on which they expand. */
module KeywordCompare {
  import opened KeywordTrie

  /** Which branch of the #if chain is compiled. */
  datatype Target = AlignedAccess | BigEndian | LittleEndian | X86_64

  /** LChar or UChar: the CHARS and the UCHARS macros. */
  datatype Width = Latin1 | Utf16

  /** Where generated code runs: the text from m_code on, and which units
      cannot continue an identifier (nor start an escape). */
  datatype Machine = Machine(target: Target, width: Width, code: Word, stops: Unit -> bool) {
    predicate Fits(u: Unit) {
      match width
      case Latin1 => u < 0x100
      case Utf16 => u < 0x1_0000
    }

    predicate Valid() {
      forall i | 0 <= i < |code| :: Fits(code[i])
    }

    /** Shift left by the width of one unit. */
    function Shl(x: nat): nat {
      match width
      case Latin1 => x * 0x100
      case Utf16 => x * 0x1_0000
    }

    /** CHARPAIR_TOUINT16 and UCHARPAIR_TOUINT32. */
    function Pair(a: Unit, b: Unit): nat {
      if target.BigEndian? then Shl(a) + b else Shl(b) + a
    }

    /** CHARQUAD_TOUINT32 and UCHARQUAD_TOUINT64, in their little-endian form. */
    function Quad(a: Unit, b: Unit, c: Unit, d: Unit): nat {
      Shl(Shl(Shl(d) + c)) + (Shl(b) + a)
    }

    /** What memory yields when two units are read as one integer. */
    function Load2(at: nat): nat
      requires at + 2 <= |code|
    {
      if target.BigEndian? then Shl(code[at]) + code[at + 1] else code[at] + Shl(code[at + 1])
    }

    /** The same for four units, on the little-endian target that reads them at once. */
    function Load4(at: nat): nat
      requires at + 4 <= |code|
    {
      code[at] + Shl(code[at + 1]) + Shl(Shl(code[at + 2])) + Shl(Shl(Shl(code[at + 3])))
    }

    predicate Compare2(at: nat, c: Word)
      requires |c| == 2 && at + 2 <= |code|
    {
      if target.AlignedAccess? then code[at] == c[0] && code[at + 1] == c[1]
      else Load2(at) == Pair(c[0], c[1])
    }

    predicate Compare4(at: nat, c: Word)
      requires |c| == 4 && at + 4 <= |code|
    {
      if target.X86_64? then Load4(at) == Quad(c[0], c[1], c[2], c[3])
      else Compare2(at, c[..2]) && Compare2(at + 2, c[2..])
    }

    /** COMPARE_n for n = |c|. */
    predicate Compare(at: nat, c: Word)
      requires 2 <= |c| <= 8 && at + |c| <= |code|
    {
      match |c|
      case 2 => Compare2(at, c)
      case 3 => Compare2(at, c[..2]) && code[at + 2] == c[2]
      case 4 => Compare4(at, c)
      case 5 => Compare4(at, c[..4]) && code[at + 4] == c[4]
      case 6 => Compare4(at, c[..4]) && Compare2(at + 4, c[4..])
      case 7 => Compare4(at, c[..4]) && Compare4(at + 3, c[3..])
      case _ => Compare4(at, c[..4]) && Compare4(at + 4, c[4..])
    }

    /** The text at `at` reads `c`, unit by unit. */
    predicate Reads(at: nat, c: Word) {
      at + |c| <= |code| && forall k | 0 <= k < |c| :: code[at + k] == c[k]
    }
  }

  /** Two packed integers agree only if their units do. */
  lemma {:induction false} ShlInjective(m: Machine, a: nat, b: Unit, c: nat, d: Unit)
    requires m.Fits(b) && m.Fits(d)
    ensures m.Shl(a) + b == m.Shl(c) + d <==> a == c && b == d
  {
  }

  /** No shift or sum in the macros leaves the integer type it is computed in. */
  lemma {:induction false} PackedFits(m: Machine, a: Unit, b: Unit, c: Unit, d: Unit)
    requires m.Fits(a) && m.Fits(b) && m.Fits(c) && m.Fits(d)
    ensures m.Pair(a, b) < if m.width.Latin1? then 0x1_0000 else 0x1_0000_0000
    ensures m.Quad(a, b, c, d) < if m.width.Latin1? then 0x1_0000_0000 else 0x1_0000_0000_0000_0000
  {
  }

  lemma {:induction false} Compare2IsEquality(m: Machine, at: nat, c: Word)
    requires m.Valid() && |c| == 2 && at + 2 <= |m.code| && m.Fits(c[0]) && m.Fits(c[1])
    ensures m.Compare2(at, c) <==> m.Reads(at, c)
  {
    var x, y := m.code[at], m.code[at + 1];
    ShlInjective(m, y, x, c[1], c[0]);
    ShlInjective(m, x, y, c[0], c[1]);
    assert m.code[at + 0] == x;
  }

  lemma {:induction false} Compare4IsEquality(m: Machine, at: nat, c: Word)
    requires m.Valid() && |c| == 4 && at + 4 <= |m.code| && forall k | 0 <= k < 4 :: m.Fits(c[k])
    ensures m.Compare4(at, c) <==> m.Reads(at, c)
  {
    assert m.Reads(at, c) <==> m.Reads(at, c[..2]) && m.Reads(at + 2, c[2..]) by {
      ReadsSplit(m, at, c, 2);
    }
    if m.target.X86_64? {
      var x, y, z, w := m.code[at], m.code[at + 1], m.code[at + 2], m.code[at + 3];
      QuadInjective(m, x, y, z, w, c[0], c[1], c[2], c[3]);
      assert m.Reads(at, c) <==> x == c[0] && y == c[1] && z == c[2] && w == c[3] by {
        assert m.code[at + 0] == x;
      }
    } else {
      Compare2IsEquality(m, at, c[..2]);
      Compare2IsEquality(m, at + 2, c[2..]);
    }
  }

  lemma {:induction false} QuadInjective(m: Machine, x: Unit, y: Unit, z: Unit, w: Unit, a: Unit, b: Unit, c: Unit, d: Unit)
    requires m.Fits(x) && m.Fits(y) && m.Fits(z) && m.Fits(w)
    requires m.Fits(a) && m.Fits(b) && m.Fits(c) && m.Fits(d)
    ensures x + m.Shl(y) + m.Shl(m.Shl(z)) + m.Shl(m.Shl(m.Shl(w))) == m.Quad(a, b, c, d)
            <==> x == a && y == b && z == c && w == d
  {
    var high, high' := m.Shl(w) + z, m.Shl(d) + c;
    ShlInjective(m, w, z, d, c);
    ShlInjective(m, m.Shl(high) + y, x, m.Shl(high') + b, a);
    ShlInjective(m, high, y, high', b);
  }

  lemma {:induction false} ReadsSplit(m: Machine, at: nat, c: Word, n: nat)
    requires n <= |c|
    ensures m.Reads(at, c) <==> m.Reads(at, c[..n]) && m.Reads(at + n, c[n..])
  {
    if m.Reads(at, c[..n]) && m.Reads(at + n, c[n..]) {
      forall k | 0 <= k < |c|
        ensures m.code[at + k] == c[k]
      {
        if k < n {
          assert c[..n][k] == c[k];
        } else {
          assert m.code[at + n + (k - n)] == c[n..][k - n];
        }
      }
    }
    if m.Reads(at, c) {
      forall k | 0 <= k < |c| - n
        ensures m.code[at + n + k] == c[n..][k]
      {
        assert m.code[at + (n + k)] == c[n + k];
      }
    }
  }

  /** Every COMPARE_n is equality of n units, on every target and at both widths;
      the seven-unit form reads its fourth unit twice. */
  lemma {:induction false} CompareIsEquality(m: Machine, at: nat, c: Word)
    requires m.Valid() && 2 <= |c| <= 8 && at + |c| <= |m.code| && forall k | 0 <= k < |c| :: m.Fits(c[k])
    ensures m.Compare(at, c) <==> m.Reads(at, c)
  {
    if |c| == 2 {
      Compare2IsEquality(m, at, c);
    } else if |c| == 3 {
      ReadsSplit(m, at, c, 2);
      Compare2IsEquality(m, at, c[..2]);
      assert m.Reads(at + 2, c[2..]) <==> m.code[at + 2] == c[2];
    } else if |c| == 4 {
      Compare4IsEquality(m, at, c);
    } else {
      ReadsSplit(m, at, c, 4);
      Compare4IsEquality(m, at, c[..4]);
      TailIsEquality(m, at, c);
    }
  }

  lemma {:induction false} TailIsEquality(m: Machine, at: nat, c: Word)
    requires m.Valid() && 5 <= |c| <= 8 && at + |c| <= |m.code| && forall k | 0 <= k < |c| :: m.Fits(c[k])
    requires m.Compare4(at, c[..4]) <==> m.Reads(at, c[..4])
    ensures m.Compare(at, c) <==> m.Reads(at, c[..4]) && m.Reads(at + 4, c[4..])
  {
    if |c| == 5 {
      assert m.Reads(at + 4, c[4..]) <==> m.code[at + 4] == c[4];
    } else if |c| == 6 {
      Compare2IsEquality(m, at + 4, c[4..]);
    } else if |c| == 7 {
      Compare4IsEquality(m, at + 3, c[3..]);
      ReadsSplit(m, at + 3, c[3..], 1);
      assert c[3..][1..] == c[4..];
      assert m.Reads(at, c[..4]) ==> m.code[at + 3] == c[..4][3];
      assert m.Reads(at + 3, c[3..][..1]) <==> m.code[at + 3] == c[3];
    } else {
      Compare4IsEquality(m, at + 4, c[4..]);
    }
  }
}
