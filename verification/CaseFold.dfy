/** Comparison ignoring case, on the ASCII letters. */
module CaseFold {
  import opened Utf16

  function FoldUnit(u: Unit): Unit {
    if 'a' as int <= u <= 'z' as int then u - 32 else u
  }

  function Fold(s: Text): (t: Text)
    ensures |t| == |s| && forall i :: 0 <= i < |s| ==> t[i] == FoldUnit(s[i])
  {
    seq(|s|, i requires 0 <= i < |s| => FoldUnit(s[i]))
  }

  /** The same character, or a letter in another case. */
  predicate SameLetter(u: Unit, w: Unit) {
    u == w || (65 <= u <= 90 && w == u + 32) || (65 <= w <= 90 && u == w + 32)
  }

  predicate SameLetters(s: Text, t: Text) {
    |s| == |t| && forall i :: 0 <= i < |s| ==> SameLetter(s[i], t[i])
  }

  lemma SameUnit(u: Unit, w: Unit)
    ensures FoldUnit(u) == FoldUnit(w) <==> SameLetter(u, w)
  {
  }

  /** Names are folded to the same exactly when they differ in the case of ASCII letters only. */
  lemma FoldsSame(s: Text, t: Text)
    ensures Fold(s) == Fold(t) <==> SameLetters(s, t)
  {
    if |s| == |t| {
      forall i | 0 <= i < |s| ensures Fold(s)[i] == Fold(t)[i] <==> SameLetter(s[i], t[i]) {
        SameUnit(s[i], t[i]);
      }
      if SameLetters(s, t) { assert forall i :: 0 <= i < |s| ==> Fold(s)[i] == Fold(t)[i]; }
    } else {
      assert |Fold(s)| != |Fold(t)|;
    }
  }
}
