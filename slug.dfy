/**
 * The file-name slug made from an issue title:
 * `title.toLowerCase().replace(/[^a-z0-9]+/g, '-').replace(/^-|-$/g, '')`.
 * Every maximal run of characters outside `[a-z0-9]` becomes one dash, and a
 * dash at either end is dropped; the result is the title's words joined by
 * single dashes.
 */
module Slug {

  /** `[a-z0-9]`. */
  predicate IsWordChar(c: char) {
    'a' <= c <= 'z' || '0' <= c <= '9'
  }

  // ---- lower case ---------------------------------------------------------

  /**
   * `toLowerCase` of one character, as far as the slug can tell: the ASCII
   * capitals and the KELVIN SIGN lower to ASCII letters; every other
   * character that changes lowers to one outside `[a-z0-9]`, which the slug
   * treats exactly like the original.
   */
  function LowerChar(c: char): string {
    if 'A' <= c <= 'Z' then [(c as int + 32) as char]
    else if c == KelvinSign then "k"
    else if c == CapitalIWithDot then "i" + [CombiningDot]
    else [c]
  }

  const KelvinSign: char := '\U{212A}'
  const CapitalIWithDot: char := '\U{0130}'
  const CombiningDot: char := '\U{0307}'

  /** `toLowerCase` of `s[k..]`, one character at a time. */
  function Lower(s: string, k: nat): string
    requires k <= |s|
    decreases |s| - k
  {
    if k == |s| then [] else LowerChar(s[k]) + Lower(s, k + 1)
  }

  /** What `toLowerCase` leaves holds none of the capitals that lower into `[a-z0-9]`. */
  lemma {:induction false} LowerLeavesNoCapital(s: string, k: nat)
    requires k <= |s|
    ensures forall j :: 0 <= j < |Lower(s, k)| ==> !IsCapital(Lower(s, k)[j])
    decreases |s| - k
  {
    if k < |s| {
      LowerLeavesNoCapital(s, k + 1);
      var h := LowerChar(s[k]);
      var r := Lower(s, k + 1);
      forall j | 0 <= j < |h + r| ensures !IsCapital((h + r)[j]) {
        if j >= |h| { assert (h + r)[j] == r[j - |h|]; }
      }
    }
  }

  predicate IsCapital(c: char) {
    'A' <= c <= 'Z' || c == KelvinSign || c == CapitalIWithDot
  }

  // ---- the two replacements ----------------------------------------------

  /** The end of the run of word characters that starts at `k`. */
  function WordEnd(t: string, k: nat): (e: nat)
    requires k <= |t|
    ensures k <= e <= |t| && (e < |t| ==> !IsWordChar(t[e]))
    decreases |t| - k
  {
    if k < |t| && IsWordChar(t[k]) then WordEnd(t, k + 1) else k
  }

  lemma {:induction false} WordEndSpan(t: string, k: nat)
    requires k <= |t|
    ensures forall j :: k <= j < WordEnd(t, k) ==> IsWordChar(t[j])
    decreases |t| - k
  {
    if k < |t| && IsWordChar(t[k]) {
      WordEndSpan(t, k + 1);
    }
  }

  /** The end of the run of other characters that starts at `k`. */
  function SepEnd(t: string, k: nat): (e: nat)
    requires k <= |t|
    ensures k <= e <= |t| && (e < |t| ==> IsWordChar(t[e]))
    decreases |t| - k
  {
    if k < |t| && !IsWordChar(t[k]) then SepEnd(t, k + 1) else k
  }

  lemma {:induction false} SepEndSpan(t: string, k: nat)
    requires k <= |t|
    ensures forall j :: k <= j < SepEnd(t, k) ==> !IsWordChar(t[j])
    decreases |t| - k
  {
    if k < |t| && !IsWordChar(t[k]) {
      SepEndSpan(t, k + 1);
    }
  }

  /** `replace(/[^a-z0-9]+/g, '-')` applied to `t[k..]`. */
  function Collapse(t: string, k: nat): string
    requires k <= |t|
    decreases |t| - k
  {
    if k == |t| then []
    else if IsWordChar(t[k]) then [t[k]] + Collapse(t, k + 1)
    else "-" + Collapse(t, SepEnd(t, k))
  }

  /** `replace(/^-|-$/g, '')`: a dash at the start and one at the end are dropped. */
  function StripEdgeDashes(s: string): string {
    var t := if |s| > 0 && s[0] == '-' then s[1..] else s;
    if |t| > 0 && t[|t| - 1] == '-' then t[..|t| - 1] else t
  }

  function Slug(title: string): string {
    var t := Lower(title, 0);
    StripEdgeDashes(Collapse(t, 0))
  }

  // ---- the reference: words joined by dashes -----------------------------

  /** The maximal runs of word characters in `t[k..]`, in order. */
  function WordsFrom(t: string, k: nat): (ws: seq<string>)
    requires k <= |t|
    ensures forall i :: 0 <= i < |ws| ==> IsWord(ws[i])
    decreases |t| - k
  {
    var a := SepEnd(t, k);
    if a == |t| then []
    else
      var e := WordEnd(t, a);
      assert IsWord(t[a..e]) by {
        WordEndSpan(t, a);
        forall j | 0 <= j < e - a ensures IsWordChar(t[a..e][j]) {
          assert t[a..e][j] == t[a + j];
        }
      }
      [t[a..e]] + WordsFrom(t, e)
  }

  /** A non-empty string of word characters. */
  predicate IsWord(w: string) {
    w != [] && forall j :: 0 <= j < |w| ==> IsWordChar(w[j])
  }

  function JoinDash(ws: seq<string>): string {
    if ws == [] then ""
    else if |ws| == 1 then ws[0]
    else ws[0] + "-" + JoinDash(ws[1..])
  }

  /** A well-formed slug: word characters and dashes, no dash at either end and no two in a row. */
  predicate IsSlugShape(s: string) {
    (forall j :: 0 <= j < |s| ==> IsWordChar(s[j]) || s[j] == '-') &&
    (s != [] ==> IsWordChar(s[0]) && IsWordChar(s[|s| - 1])) &&
    (forall j :: 0 <= j < |s| - 1 ==> IsWordChar(s[j]) || IsWordChar(s[j + 1]))
  }

  // ---- lemmas ---------------------------------------------------------------

  /** A run of word characters is copied by `Collapse` as it is. */
  lemma {:induction false} CollapseWord(t: string, k: nat)
    requires k <= |t|
    ensures Collapse(t, k) == t[k..WordEnd(t, k)] + Collapse(t, WordEnd(t, k))
    decreases |t| - k
  {
    var e := WordEnd(t, k);
    if k < |t| && IsWordChar(t[k]) {
      assert e == WordEnd(t, k + 1);
      CollapseWord(t, k + 1);
      var rest := Collapse(t, e);
      assert Collapse(t, k) == [t[k]] + (t[k + 1..e] + rest);
      assert t[k..e] == [t[k]] + t[k + 1..e];
      assert [t[k]] + (t[k + 1..e] + rest) == ([t[k]] + t[k + 1..e]) + rest;
    } else {
      assert e == k;
      assert t[k..e] == [];
      assert t[k..e] + Collapse(t, e) == Collapse(t, k);
    }
  }

  /** Starting on a word, `Collapse` gives the words joined by dashes, and one more dash when `t` ends in a separator. */
  lemma {:induction false} CollapseFromWord(t: string, k: nat)
    requires k < |t| && IsWordChar(t[k])
    ensures WordsFrom(t, k) != []
    ensures Collapse(t, k) == JoinDash(WordsFrom(t, k)) + (if IsWordChar(t[|t| - 1]) then "" else "-")
    decreases |t| - k
  {
    var e := WordEnd(t, k);
    if e == |t| {
      CollapseLastWord(t, k);
    } else if SepEnd(t, e) == |t| {
      CollapseWordThenSeparators(t, k);
    } else {
      CollapseFromWord(t, SepEnd(t, e));
      CollapseWordThenMore(t, k);
    }
  }

  /** The step of `CollapseFromWord` past one word, given the result for the next word. */
  lemma {:induction false} CollapseWordThenMore(t: string, k: nat)
    requires k < |t| && IsWordChar(t[k])
    requires WordEnd(t, k) < |t| && SepEnd(t, WordEnd(t, k)) < |t|
    requires var a := SepEnd(t, WordEnd(t, k));
      WordsFrom(t, a) != [] &&
      Collapse(t, a) == JoinDash(WordsFrom(t, a)) + (if IsWordChar(t[|t| - 1]) then "" else "-")
    ensures WordsFrom(t, k) != []
    ensures Collapse(t, k) == JoinDash(WordsFrom(t, k)) + (if IsWordChar(t[|t| - 1]) then "" else "-")
  {
    var e := WordEnd(t, k);
    var a := SepEnd(t, e);
    var w := t[k..e];
    var suffix := if IsWordChar(t[|t| - 1]) then "" else "-";
    var ws := WordsFrom(t, a);
    NextWordFollows(t, k, e, a);
    CollapseWordSep(t, k);
    JoinDashCons(w, ws);
    DashRegroup(w, JoinDash(ws), suffix);
  }

  lemma {:induction false} JoinDashCons(w: string, ws: seq<string>)
    requires ws != []
    ensures JoinDash([w] + ws) == w + "-" + JoinDash(ws)
  {
    assert ([w] + ws)[0] == w && ([w] + ws)[1..] == ws;
  }

  // Re-associates the concatenation once, so that the step from `Collapse` to `JoinDash` does not pay for the solver finding it.
  lemma {:induction false} DashRegroup(w: string, j: string, suffix: string)
    ensures w + ("-" + (j + suffix)) == w + "-" + j + suffix
  {
  }

  /** A word that runs to the end of `t` is the only word, and `Collapse` keeps it as it is. */
  lemma {:induction false} CollapseLastWord(t: string, k: nat)
    requires k < |t| && IsWordChar(t[k]) && WordEnd(t, k) == |t|
    ensures WordsFrom(t, k) == [t[k..]]
    ensures Collapse(t, k) == t[k..]
    ensures IsWordChar(t[|t| - 1])
  {
    assert SepEnd(t, k) == k;
    assert WordsFrom(t, |t|) == [];
    CollapseWord(t, k);
    assert Collapse(t, |t|) == [];
    assert t[k..|t|] == t[k..];
    assert Collapse(t, k) == t[k..] + [];
    WordEndSpan(t, k);
  }

  /** A word followed only by separators is the only word, and `Collapse` turns the separators into one dash. */
  lemma {:induction false} CollapseWordThenSeparators(t: string, k: nat)
    requires k < |t| && IsWordChar(t[k])
    requires WordEnd(t, k) < |t| && SepEnd(t, WordEnd(t, k)) == |t|
    ensures WordsFrom(t, k) == [t[k..WordEnd(t, k)]]
    ensures Collapse(t, k) == t[k..WordEnd(t, k)] + "-"
    ensures !IsWordChar(t[|t| - 1])
  {
    var e := WordEnd(t, k);
    assert SepEnd(t, k) == k;
    assert WordsFrom(t, e) == [];
    CollapseWordSep(t, k);
    assert Collapse(t, |t|) == [];
    SepEndSpan(t, e);
  }

  /** After a word that does not end `t`, `Collapse` writes the word, one dash, and carries on at the next word start. */
  lemma {:induction false} CollapseWordSep(t: string, k: nat)
    requires k < |t| && IsWordChar(t[k]) && WordEnd(t, k) < |t|
    ensures Collapse(t, k) == t[k..WordEnd(t, k)] + ("-" + Collapse(t, SepEnd(t, WordEnd(t, k))))
  {
    var e := WordEnd(t, k);
    CollapseWord(t, k);
    assert Collapse(t, e) == "-" + Collapse(t, SepEnd(t, e));
  }

  /** The words from `k` are the word at `k` followed by the words from the next word start `a`. */
  lemma {:induction false} NextWordFollows(t: string, k: nat, e: nat, a: nat)
    requires k < |t| && IsWordChar(t[k]) && e == WordEnd(t, k) && e < |t| && a == SepEnd(t, e) && a < |t|
    ensures WordsFrom(t, k) == [t[k..e]] + WordsFrom(t, a)
    ensures WordsFrom(t, a) != [] ==> ([t[k..e]] + WordsFrom(t, a))[1..] == WordsFrom(t, a)
  {
    assert SepEnd(t, k) == k;
    assert SepEnd(t, a) == a;
    assert WordsFrom(t, e) == WordsFrom(t, a);
  }

  /** Joining non-empty words with dashes gives a string that starts and ends with a word character. */
  lemma {:induction false} JoinDashEnds(ws: seq<string>)
    requires ws != [] && forall i :: 0 <= i < |ws| ==> IsWord(ws[i])
    ensures JoinDash(ws) != [] && IsWordChar(JoinDash(ws)[0]) && IsWordChar(JoinDash(ws)[|JoinDash(ws)| - 1])
  {
    if |ws| > 1 {
      JoinDashEnds(ws[1..]);
      var r := JoinDash(ws[1..]);
      assert (ws[0] + "-" + r)[0] == ws[0][0];
      assert (ws[0] + "-" + r)[|ws[0] + "-" + r| - 1] == r[|r| - 1];
    }
  }

  /** The slug of a title is its lowered text's words, joined by single dashes. */
  lemma {:induction false} SlugIsJoinedWords(title: string)
    ensures Slug(title) == JoinDash(WordsFrom(Lower(title, 0), 0))
  {
    StripCollapse(Lower(title, 0));
  }

  lemma {:induction false} StripCollapse(t: string)
    ensures StripEdgeDashes(Collapse(t, 0)) == JoinDash(WordsFrom(t, 0))
  {
    if t != [] {
      if SepEnd(t, 0) < |t| {
        StripCollapseWords(t);
      } else {
        assert Collapse(t, 0) == "-";
      }
    }
  }

  lemma {:induction false} StripCollapseWords(t: string)
    requires t != [] && SepEnd(t, 0) < |t|
    ensures StripEdgeDashes(Collapse(t, 0)) == JoinDash(WordsFrom(t, 0))
  {
    var a := SepEnd(t, 0);
    var lead := !IsWordChar(t[0]);
    assert Collapse(t, 0) == (if lead then "-" else "") + Collapse(t, a);
    assert SepEnd(t, a) == a;
    assert WordsFrom(t, 0) == WordsFrom(t, a);
    CollapseFromWord(t, a);
    var j := JoinDash(WordsFrom(t, a));
    var trail := !IsWordChar(t[|t| - 1]);
    JoinDashEnds(WordsFrom(t, a));
    assert Collapse(t, 0) == (if lead then "-" else "") + j + (if trail then "-" else "");
    StripWrapped(j, lead, trail);
  }

  /** Dropping the edge dashes from a dash-wrapped string that starts and ends with word characters gives it back. */
  lemma {:induction false} StripWrapped(j: string, lead: bool, trail: bool)
    requires j != [] && IsWordChar(j[0]) && IsWordChar(j[|j| - 1])
    ensures StripEdgeDashes((if lead then "-" else "") + j + (if trail then "-" else "")) == j
  {
    var s := (if lead then "-" else "") + j + (if trail then "-" else "");
    var u := if lead then s[1..] else s;
    assert u == j + (if trail then "-" else "");
    if trail {
      assert u[..|u| - 1] == j;
    }
  }

  /** Words joined by single dashes have the slug shape. */
  lemma {:induction false} JoinDashShape(ws: seq<string>)
    requires forall i :: 0 <= i < |ws| ==> IsWord(ws[i])
    ensures IsSlugShape(JoinDash(ws))
  {
    if |ws| == 1 {
    } else if |ws| > 1 {
      var w := ws[0];
      var r := JoinDash(ws[1..]);
      JoinDashShape(ws[1..]);
      JoinDashEnds(ws[1..]);
      var s := w + "-" + r;
      forall j | 0 <= j < |s| ensures IsWordChar(s[j]) || s[j] == '-' {
        if j > |w| { assert s[j] == r[j - |w| - 1]; }
      }
      forall j | 0 <= j < |s| - 1 ensures IsWordChar(s[j]) || IsWordChar(s[j + 1]) {
        if j < |w| {
          assert s[j] == w[j];
        } else if j == |w| {
          assert s[j + 1] == r[0];
        } else {
          assert s[j] == r[j - |w| - 1] && s[j + 1] == r[j - |w|];
        }
      }
      assert s[0] == w[0] && s[|s| - 1] == r[|r| - 1];
    }
  }

  /** Every slug has the slug shape: `[a-z0-9]` and single dashes between, never at an end. */
  lemma {:induction false} SlugShape(title: string)
    ensures IsSlugShape(Slug(title))
  {
    SlugIsJoinedWords(title);
    JoinDashShape(WordsFrom(Lower(title, 0), 0));
  }

  /** A title with no letter or digit gives the empty slug. */
  lemma {:induction false} SymbolsGiveEmptySlug(title: string)
    requires forall j :: 0 <= j < |Lower(title, 0)| ==> !IsWordChar(Lower(title, 0)[j])
    ensures Slug(title) == ""
  {
    SlugIsJoinedWords(title);
    var t := Lower(title, 0);
    assert SepEnd(t, 0) == |t| by {
      SepEndAll(t, 0);
    }
  }

  lemma {:induction false} SepEndAll(t: string, k: nat)
    requires k <= |t| && forall j :: k <= j < |t| ==> !IsWordChar(t[j])
    ensures SepEnd(t, k) == |t|
    decreases |t| - k
  {
    if k < |t| {
      SepEndAll(t, k + 1);
    }
  }

  lemma {:induction false} LowerOfTitle()
    ensures Lower("Adopt gRPC!", 0) == "adopt grpc!"
  {
    var t := "Adopt gRPC!";
    assert Lower(t, 10) == "!";
    assert Lower(t, 9) == "c!";
    assert Lower(t, 8) == "pc!";
    assert Lower(t, 7) == "rpc!";
    assert Lower(t, 6) == "grpc!";
    assert Lower(t, 5) == " grpc!";
    assert Lower(t, 4) == "t grpc!";
    assert Lower(t, 3) == "pt grpc!";
    assert Lower(t, 2) == "opt grpc!";
    assert Lower(t, 1) == "dopt grpc!";
  }

  lemma {:induction false} CollapseOfTitle()
    ensures Collapse("adopt grpc!", 0) == "adopt-grpc-"
  {
    var t := "adopt grpc!";
    assert Collapse(t, 10) == "-" by { assert SepEnd(t, 10) == 11; }
    assert Collapse(t, 9) == "c-";
    assert Collapse(t, 8) == "pc-";
    assert Collapse(t, 7) == "rpc-";
    assert Collapse(t, 6) == "grpc-";
    assert Collapse(t, 5) == "-grpc-" by { assert SepEnd(t, 5) == 6; }
    assert Collapse(t, 4) == "t-grpc-";
    assert Collapse(t, 3) == "pt-grpc-";
    assert Collapse(t, 2) == "opt-grpc-";
    assert Collapse(t, 1) == "dopt-grpc-";
  }

  /** The punctuation at the end of a title leaves no dash behind. */
  lemma {:induction false} SlugOfTitle()
    ensures Slug("Adopt gRPC!") == "adopt-grpc"
  {
    LowerOfTitle();
    CollapseOfTitle();
    var c := "adopt-grpc-";
    assert c[..|c| - 1] == "adopt-grpc";
  }

  /** The worked example's title, with nothing to drop at either end. */
  lemma {:induction false} SlugOfExampleTitle()
    ensures Slug("Adopt gRPC") == "adopt-grpc"
  {
    LowerOfExampleTitle();
    CollapseOfExampleTitle();
  }

  lemma {:induction false} LowerOfExampleTitle()
    ensures Lower("Adopt gRPC", 0) == "adopt grpc"
  {
    var t := "Adopt gRPC";
    assert Lower(t, 9) == "c";
    assert Lower(t, 8) == "pc";
    assert Lower(t, 7) == "rpc";
    assert Lower(t, 6) == "grpc";
    assert Lower(t, 5) == " grpc";
    assert Lower(t, 4) == "t grpc";
    assert Lower(t, 3) == "pt grpc";
    assert Lower(t, 2) == "opt grpc";
    assert Lower(t, 1) == "dopt grpc";
  }

  lemma {:induction false} CollapseOfExampleTitle()
    ensures Collapse("adopt grpc", 0) == "adopt-grpc"
  {
    var t := "adopt grpc";
    assert Collapse(t, 9) == "c";
    assert Collapse(t, 8) == "pc";
    assert Collapse(t, 7) == "rpc";
    assert Collapse(t, 6) == "grpc";
    assert Collapse(t, 5) == "-grpc" by { assert SepEnd(t, 5) == 6; }
    assert Collapse(t, 4) == "t-grpc";
    assert Collapse(t, 3) == "pt-grpc";
    assert Collapse(t, 2) == "opt-grpc";
    assert Collapse(t, 1) == "dopt-grpc";
  }
}
