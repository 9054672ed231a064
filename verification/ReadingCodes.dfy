/** Which stages of a dossier are a reading of its text, and which reading. */
module ReadingCodes {
  import opened Prelude

  datatype Chamber = NationalAssembly | Senate | Cmp

  const READING_CODES := {"AN1", "AN2", "ANNLEC", "ANLDEF", "ANLUNI", "SN1", "SN2", "SNNLEC", "SNLDEF", "SNLUNI", "CMP"}

  /** Stage code -> (chamber, reading number); the single readings share the first number. */
  function ReadingOf(code: string): Option<(Chamber, nat)> {
    if code == "AN1" || code == "ANLUNI" then Some((NationalAssembly, 1))
    else if code == "AN2" then Some((NationalAssembly, 2))
    else if code == "ANNLEC" then Some((NationalAssembly, 3))
    else if code == "ANLDEF" then Some((NationalAssembly, 4))
    else if code == "SN1" || code == "SNLUNI" then Some((Senate, 1))
    else if code == "SN2" then Some((Senate, 2))
    else if code == "SNNLEC" then Some((Senate, 3))
    else if code == "SNLDEF" then Some((Senate, 4))
    else if code == "CMP" then Some((Cmp, 1))
    else None
  }

  /** The codes that decide a law's status are those that get a row in public.law_reading. */
  lemma ReadingCodesAgree(code: string)
    ensures code in READING_CODES <==> ReadingOf(code).Some?
  {
  }

  predicate BeginsWith(code: string, prefix: string) { |prefix| <= |code| && code[..|prefix|] == prefix }

  /** Readings in the order of the navette; a single reading counts as a first one. */
  const ORDER := ["1", "2", "NLEC", "LDEF"]

  const SINGLE := "LUNI"

  /** The letters of a code give its chamber, and what follows them its number, alike in both chambers. */
  lemma ReadingIsChamberAndNumber(code: string)
    requires ReadingOf(code).Some?
    ensures var (chamber, number) := ReadingOf(code).value;
            && (chamber == NationalAssembly <==> BeginsWith(code, "AN"))
            && (chamber == Senate <==> BeginsWith(code, "SN"))
            && (chamber == Cmp <==> code == "CMP")
            && (chamber == Cmp ==> number == 1)
            && (chamber != Cmp ==> 1 <= number <= 4 && (code[2..] == ORDER[number - 1] || (code[2..] == SINGLE && number == 1)))
  {
    assert "AN1"[..2] == "ANLUNI"[..2] == "AN2"[..2] == "ANNLEC"[..2] == "ANLDEF"[..2] == "AN";
    assert "SN1"[..2] == "SNLUNI"[..2] == "SN2"[..2] == "SNNLEC"[..2] == "SNLDEF"[..2] == "SN";
    assert "AN1"[2..] == "SN1"[2..] == "1" && "AN2"[2..] == "SN2"[2..] == "2" && "ANNLEC"[2..] == "SNNLEC"[2..] == "NLEC";
    assert "ANLDEF"[2..] == "SNLDEF"[2..] == "LDEF" && "ANLUNI"[2..] == "SNLUNI"[2..] == "LUNI";
  }

  /** The two codes of a first reading of one chamber. */
  predicate Siblings(a: string, b: string) {
    || (a == "AN1" && b == "ANLUNI") || (a == "ANLUNI" && b == "AN1")
    || (a == "SN1" && b == "SNLUNI") || (a == "SNLUNI" && b == "SN1")
  }

  /** Two codes share a row exactly when they are one code, or a first and a single reading of one chamber. */
  lemma SameReadingIff(a: string, b: string)
    requires ReadingOf(a).Some? && ReadingOf(b).Some?
    ensures ReadingOf(a) == ReadingOf(b) <==> a == b || Siblings(a, b)
  {
  }
}
