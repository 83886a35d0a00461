/** The ASCII letters and digits, one by one, against the ranges the grammars are written with. */
module Letters {
  predicate Capital(c: char) { c in "ABCDEFGHI" || c in "JKLMNOPQR" || c in "STUVWXYZ" }
  predicate Small(c: char) { c in "abcdefghi" || c in "jklmnopqr" || c in "stuvwxyz" }
  predicate Digit(c: char) { c in "0123456789" }

  lemma SmallIs(c: char)
    ensures 'a' <= c <= 'z' <==> Small(c)
  {
    FirstSmall(c);
    MiddleSmall(c);
    LastSmall(c);
  }

  lemma FirstSmall(c: char)
    ensures 'a' <= c <= 'i' <==> c in "abcdefghi"
  {
    if 'a' <= c <= 'i' {
      assert "abcdefghi"[c as int - 'a' as int] == c;
    }
  }

  lemma MiddleSmall(c: char)
    ensures 'j' <= c <= 'r' <==> c in "jklmnopqr"
  {
    if 'j' <= c <= 'r' {
      assert "jklmnopqr"[c as int - 'j' as int] == c;
    }
  }

  lemma LastSmall(c: char)
    ensures 's' <= c <= 'z' <==> c in "stuvwxyz"
  {
    if 's' <= c <= 'z' {
      assert "stuvwxyz"[c as int - 's' as int] == c;
    }
  }

  lemma CapitalIs(c: char)
    ensures 'A' <= c <= 'Z' <==> Capital(c)
  {
    FirstCapital(c);
    MiddleCapital(c);
    LastCapital(c);
  }

  lemma FirstCapital(c: char)
    ensures 'A' <= c <= 'I' <==> c in "ABCDEFGHI"
  {
    if 'A' <= c <= 'I' {
      assert "ABCDEFGHI"[c as int - 'A' as int] == c;
    }
  }

  lemma MiddleCapital(c: char)
    ensures 'J' <= c <= 'R' <==> c in "JKLMNOPQR"
  {
    if 'J' <= c <= 'R' {
      assert "JKLMNOPQR"[c as int - 'J' as int] == c;
    }
  }

  lemma LastCapital(c: char)
    ensures 'S' <= c <= 'Z' <==> c in "STUVWXYZ"
  {
    if 'S' <= c <= 'Z' {
      assert "STUVWXYZ"[c as int - 'S' as int] == c;
    }
  }

  lemma DigitIs(c: char)
    ensures '0' <= c <= '9' <==> Digit(c)
  {
    if '0' <= c <= '9' {
      assert "0123456789"[c as int - '0' as int] == c;
    }
  }
}
