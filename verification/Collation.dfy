/** Text as the NOCASE collation compares it: ASCII letters fold to lower case, everything else stands for itself. */
module Collation {
  function FoldChar(c: char): char { if 'A' <= c <= 'Z' then c + ('a' - 'A') else c }

  function Fold(s: string): string { seq(|s|, i requires 0 <= i < |s| => FoldChar(s[i])) }

  lemma ThirdOfFold(c: char, capitals: string, smalls: string)
    requires |capitals| == |smalls| && |capitals| > 0 && 'A' <= capitals[0]
    requires forall i | 0 <= i < |capitals| ::
               && capitals[i] as int == capitals[0] as int + i && capitals[i] <= 'Z'
               && smalls[i] as int == capitals[i] as int + 32
    ensures forall i | 0 <= i < |capitals| && c == capitals[i] :: FoldChar(c) == smalls[i]
    ensures c in capitals <==> capitals[0] <= c <= capitals[|capitals| - 1]
  {
    if capitals[0] <= c <= capitals[|capitals| - 1] {
      assert capitals[c as int - capitals[0] as int] == c;
    }
  }

  /** The 26 capitals fold to their small letters, in three runs, and a text has no other characters that change. */
  lemma FoldIs(s: string, i: nat)
    requires i < |s|
    ensures |Fold(s)| == |s|
    ensures forall k | 0 <= k < 9 && s[i] == "ABCDEFGHI"[k] :: Fold(s)[i] == "abcdefghi"[k]
    ensures forall k | 0 <= k < 9 && s[i] == "JKLMNOPQR"[k] :: Fold(s)[i] == "jklmnopqr"[k]
    ensures forall k | 0 <= k < 8 && s[i] == "STUVWXYZ"[k] :: Fold(s)[i] == "stuvwxyz"[k]
    ensures s[i] !in "ABCDEFGHI" && s[i] !in "JKLMNOPQR" && s[i] !in "STUVWXYZ" ==> Fold(s)[i] == s[i]
  {
    ThirdOfFold(s[i], "ABCDEFGHI", "abcdefghi");
    ThirdOfFold(s[i], "JKLMNOPQR", "jklmnopqr");
    ThirdOfFold(s[i], "STUVWXYZ", "stuvwxyz");
  }
}
