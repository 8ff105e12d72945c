/** The escape replacement applied to every string chunk received from the game. */
module Escapes {
  import opened Bytes

  const SLASH: byte := 47
  const LOWER_T: byte := 116
  const LOWER_N: byte := 110
  const TAB: byte := 9
  const NEWLINE: byte := 10

  /** Go's strings.ReplaceAll for the two-byte pattern "/" + `second` and a one-byte replacement. */
  function ReplaceAll(s: seq<byte>, second: byte, sub: byte): seq<byte> {
    if |s| < 2 then s
    else if s[0] == SLASH && s[1] == second then [sub] + ReplaceAll(s[2..], second, sub)
    else [s[0]] + ReplaceAll(s[1..], second, sub)
  }

  /** The code's form: first every "/t", then every "/n". */
  function ReplaceEscapes(s: seq<byte>): seq<byte> {
    ReplaceAll(ReplaceAll(s, LOWER_T, TAB), LOWER_N, NEWLINE)
  }

  /** The reference form: one left-to-right pass over both escapes. */
  function Unescape(s: seq<byte>): seq<byte> {
    if |s| < 2 then s
    else if s[0] == SLASH && s[1] == LOWER_T then [TAB] + Unescape(s[2..])
    else if s[0] == SLASH && s[1] == LOWER_N then [NEWLINE] + Unescape(s[2..])
    else [s[0]] + Unescape(s[1..])
  }

  ghost predicate EscapeAt(s: seq<byte>, i: nat) {
    i + 1 < |s| && s[i] == SLASH && (s[i + 1] == LOWER_T || s[i + 1] == LOWER_N)
  }

  ghost predicate HasEscape(s: seq<byte>) {
    exists i: nat :: EscapeAt(s, i)
  }

  /** What the first pass makes of the head of a string: it neither invents nor eats a byte that matters to the second. */
  lemma {:induction false} FirstByteOfPass(s: seq<byte>, second: byte, sub: byte)
    requires s != []
    ensures ReplaceAll(s, second, sub) != []
    ensures ReplaceAll(s, second, sub)[0] == if |s| >= 2 && s[0] == SLASH && s[1] == second then sub else s[0]
  {
  }

  /** Two passes over the whole string do the same as one pass over both escapes. */
  lemma {:induction false} TwoPassesAreOne(s: seq<byte>)
    ensures ReplaceEscapes(s) == Unescape(s)
    decreases |s|
  {
    if |s| >= 2 {
      var first := ReplaceAll(s, LOWER_T, TAB);
      if s[0] == SLASH && s[1] == LOWER_T {
        TwoPassesAreOne(s[2..]);
        assert first[1..] == ReplaceAll(s[2..], LOWER_T, TAB);
      } else if s[0] == SLASH && s[1] == LOWER_N {
        var tail := ReplaceAll(s[2..], LOWER_T, TAB);
        assert ReplaceAll(s[1..], LOWER_T, TAB) == [LOWER_N] + tail by {
          if |s| > 2 {
            assert s[1..][1..] == s[2..];
          } else {
            assert s[1..] == [LOWER_N] && s[2..] == [];
          }
        }
        assert first == [SLASH, LOWER_N] + tail;
        TwoPassesAreOne(s[2..]);
        assert first[2..] == tail;
      } else {
        TwoPassesAreOne(s[1..]);
        FirstByteOfPass(s[1..], LOWER_T, TAB);
        assert first[1..] == ReplaceAll(s[1..], LOWER_T, TAB);
      }
    }
  }

  lemma {:induction false} FirstByteOfUnescape(s: seq<byte>)
    requires s != []
    ensures Unescape(s) != []
    ensures Unescape(s)[0] == s[0] || (s[0] == SLASH && (Unescape(s)[0] == TAB || Unescape(s)[0] == NEWLINE))
  {
  }

  lemma {:induction false} UnescapeLeavesNoEscape(s: seq<byte>)
    ensures !HasEscape(Unescape(s))
    decreases |s|
  {
    if |s| >= 2 {
      var r := Unescape(s);
      var eats := s[0] == SLASH && (s[1] == LOWER_T || s[1] == LOWER_N);
      var rest := if eats then s[2..] else s[1..];
      UnescapeLeavesNoEscape(rest);
      assert r[1..] == Unescape(rest);
      if !eats {
        FirstByteOfUnescape(rest);
      }
      forall i: nat
        ensures !EscapeAt(r, i)
      {
        if i > 0 {
          assert !EscapeAt(r[1..], i - 1);
        }
      }
    }
  }

  lemma {:induction false} UnescapeKeepsPlainText(s: seq<byte>)
    requires !HasEscape(s)
    ensures Unescape(s) == s
    decreases |s|
  {
    if |s| >= 2 {
      var t := s[1..];
      forall i: nat
        ensures !EscapeAt(t, i)
      {
        assert !EscapeAt(s, i + 1);
      }
      assert !EscapeAt(s, 0);
      UnescapeKeepsPlainText(t);
    }
  }

  /** After the replacement no "/t" and no "/n" is left, so replacing again changes nothing. */
  lemma ReplaceEscapesIsIdempotent(s: seq<byte>)
    ensures !HasEscape(ReplaceEscapes(s))
    ensures ReplaceEscapes(ReplaceEscapes(s)) == ReplaceEscapes(s)
  {
    var r := ReplaceEscapes(s);
    TwoPassesAreOne(s);
    UnescapeLeavesNoEscape(s);
    TwoPassesAreOne(r);
    UnescapeKeepsPlainText(r);
  }

  lemma PlainByteIsKept(s: seq<byte>)
    requires |s| >= 1 && s[0] != 0x2F
    ensures Unescape(s) == [s[0]] + Unescape(s[1..])
  {
  }

  lemma {:induction false} EscapeIsReplaced(plain: seq<byte>, second: byte, sub: byte, rest: seq<byte>)
    requires 0x2F !in plain && ((second == 0x74 && sub == 0x09) || (second == 0x6E && sub == 0x0A))
    ensures Unescape(plain + [0x2F, second] + rest) == plain + [sub] + Unescape(rest)
  {
    var s := plain + [0x2F, second] + rest;
    if plain == [] {
      assert s == [0x2F, second] + rest && s[2..] == rest;
    } else {
      EscapeIsReplaced(plain[1..], second, sub, rest);
      PlainByteIsKept(s);
      hide Unescape;
      assert s[1..] == plain[1..] + [0x2F, second] + rest;
      assert [plain[0]] + (plain[1..] + [sub] + Unescape(rest)) == plain + [sub] + Unescape(rest);
    }
  }

  /** Up to the first slash a text is kept; "/t" there becomes a tab, "/n" a line feed, and the rest is unescaped in turn. */
  lemma EscapesAreReplaced(plain: seq<byte>, rest: seq<byte>)
    requires 0x2F !in plain
    ensures Unescape(plain + [0x2F, 0x74] + rest) == plain + [0x09] + Unescape(rest)
    ensures Unescape(plain + [0x2F, 0x6E] + rest) == plain + [0x0A] + Unescape(rest)
  {
    EscapeIsReplaced(plain, 0x74, 0x09, rest);
    EscapeIsReplaced(plain, 0x6E, 0x0A, rest);
  }
}
