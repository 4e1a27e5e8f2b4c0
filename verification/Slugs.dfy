/** Slugs: runs of letters and digits joined by single hyphens, after a Unicode fold that stays abstract. */
module Slugs {
  import opened Sequences

  predicate Alnum(c: char) {
    'a' <= c <= 'z' || IsDigit(c)
  }

  function SkipOthers(s: string): (r: string)
    ensures |r| <= |s|
    ensures r == "" || Alnum(r[0])
    ensures s != "" && !Alnum(s[0]) ==> |r| < |s|
  {
    if s != "" && !Alnum(s[0]) then SkipOthers(s[1..]) else s
  }

  /** `replace(/[^a-z0-9]+/g, '-')`. */
  function ReplaceRuns(s: string): string
    decreases |s|
  {
    if s == "" then ""
    else if Alnum(s[0]) then [s[0]] + ReplaceRuns(s[1..])
    else "-" + ReplaceRuns(SkipOthers(s))
  }

  function TrimStart(s: string): string {
    if s != "" && s[0] == '-' then TrimStart(s[1..]) else s
  }

  function TrimEnd(s: string): string {
    if s != "" && s[|s| - 1] == '-' then TrimEnd(s[..|s| - 1]) else s
  }

  /** What follows the fold; the last step is `replace(/^-+|-+$/g, '')`. */
  function Hyphenate(s: string): string {
    TrimEnd(TrimStart(ReplaceRuns(s)))
  }

  /** `fold` stands for NFD normalisation, removal of combining marks and lower-casing. */
  function Slugify(fold: string -> string, s: string): string {
    Hyphenate(fold(s))
  }

  // ---- words ----

  /** The letters and digits `s` starts with. */
  function Run(s: string): (r: string)
    ensures r <= s
    ensures forall c :: c in r ==> Alnum(c)
    ensures |r| < |s| ==> !Alnum(s[|r|])
    ensures s != "" && Alnum(s[0]) ==> r != ""
  {
    if s != "" && Alnum(s[0]) then [s[0]] + Run(s[1..]) else ""
  }

  function Words(s: string): seq<string>
    decreases |s|
  {
    if s == "" then []
    else if Alnum(s[0]) then [Run(s)] + Words(s[|Run(s)|..])
    else Words(s[1..])
  }

  function Join(words: seq<string>): string {
    if words == [] then ""
    else if |words| == 1 then words[0]
    else words[0] + "-" + Join(words[1..])
  }

  predicate Word(w: string) {
    w != "" && forall c :: c in w ==> Alnum(c)
  }

  lemma {:induction false} WordsAreWords(s: string)
    ensures forall w :: w in Words(s) ==> Word(w)
    decreases |s|
  {
    if s != "" {
      WordsAreWords(if Alnum(s[0]) then s[|Run(s)|..] else s[1..]);
    }
  }

  lemma {:induction false} SkippingKeepsWords(s: string)
    ensures Words(SkipOthers(s)) == Words(s)
  {
    if s != "" && !Alnum(s[0]) {
      SkippingKeepsWords(s[1..]);
    }
  }

  lemma {:induction false} ReplaceKeepsRun(s: string)
    ensures ReplaceRuns(s) == Run(s) + ReplaceRuns(s[|Run(s)|..])
  {
    if s != "" && Alnum(s[0]) {
      ReplaceKeepsRun(s[1..]);
      assert s[1..][|Run(s[1..])|..] == s[|Run(s)|..];
    }
  }

  /** A joined list of words starts and ends with a letter or digit. */
  lemma {:induction false} JoinEnds(words: seq<string>)
    requires words != [] && forall w :: w in words ==> Word(w)
    ensures var j := Join(words); j != "" && Alnum(j[0]) && Alnum(j[|j| - 1])
  {
    if |words| > 1 {
      JoinEnds(words[1..]);
    }
    assert Word(words[0]);
    assert words[0][0] in words[0] && words[0][|words[0]| - 1] in words[0];
  }

  function HyphenIf(b: bool): string {
    if b then "-" else ""
  }

  /** The words joined, with a hyphen at either end where other characters stood. */
  function Shape(s: string): string {
    if s == "" then "" else Framed(!Alnum(s[0]), Words(s), !Alnum(s[|s| - 1]))
  }

  function Framed(first: bool, words: seq<string>, last: bool): string {
    if words == [] then "-" else HyphenIf(first) + Join(words) + HyphenIf(last)
  }

  lemma {:induction false} ReplaceRunsIs(s: string)
    ensures ReplaceRuns(s) == Shape(s)
    decreases |s|
  {
    if s == "" {
    } else if Alnum(s[0]) {
      ReplaceKeepsRun(s);
      ReplaceRunsIs(s[|Run(s)|..]);
      ShapeAfterRun(s, Run(s), s[|Run(s)|..]);
    } else {
      ReplaceRunsIs(SkipOthers(s));
      ShapeAfterSkip(s, SkipOthers(s));
    }
  }

  lemma JoinCons(w: string, words: seq<string>)
    ensures Join([w] + words) == if words == [] then w else w + "-" + Join(words)
  {
    assert ([w] + words)[1..] == words;
  }

  lemma FramedCons(w: string, words: seq<string>, last: bool)
    requires words == [] ==> last
    ensures Framed(false, [w] + words, last) == w + Framed(true, words, last)
  {
    JoinCons(w, words);
    if words != [] {
      Regrouped(w, Join(words), HyphenIf(last));
    }
  }

  lemma Regrouped(w: string, j: string, h: string)
    ensures "" + (w + "-" + j) + h == w + ("-" + j + h)
  {
  }

  lemma FramedOne(w: string)
    ensures Framed(false, [w], false) == w
  {
    JoinCons(w, []);
    assert [w] + [] == [w];
  }

  lemma ShapeAfterRun(s: string, w: string, rest: string)
    requires s != "" && Alnum(s[0]) && w == Run(s) && rest == s[|w|..]
    ensures Shape(s) == w + Shape(rest)
  {
    var words, open := Words(rest), !Alnum(s[|s| - 1]);
    assert Words(s) == [w] + words;
    assert Shape(s) == Framed(false, [w] + words, open);
    if rest == "" {
      RunEnds(s);
      FramedOne(w);
      assert [w] + words == [w];
    } else {
      ShapeAfterHyphen(s, |w|, words);
      FramedCons(w, words, open);
    }
  }

  lemma ShapeAfterHyphen(s: string, n: nat, words: seq<string>)
    requires n < |s| && !Alnum(s[n]) && words == Words(s[n..])
    ensures Shape(s[n..]) == Framed(true, words, !Alnum(s[|s| - 1]))
    ensures words == [] ==> !Alnum(s[|s| - 1])
  {
    NoWordsEnd(s[n..]);
  }

  lemma RunEnds(s: string)
    requires s != "" && |Run(s)| == |s|
    ensures Alnum(s[|s| - 1])
  {
    assert s == Run(s);
    assert s[|s| - 1] in s;
  }

  lemma ShapeAfterSkip(s: string, u: string)
    requires s != "" && !Alnum(s[0]) && u == SkipOthers(s)
    ensures Shape(s) == "-" + Shape(u)
  {
    var words, last := Words(s), s[|s| - 1];
    SkippingKeepsWords(s);
    SkipKeepsLast(s);
    if words != [] {
      FramedFirst(words, !Alnum(last));
    }
  }

  lemma FramedFirst(words: seq<string>, last: bool)
    requires words != []
    ensures Framed(true, words, last) == "-" + Framed(false, words, last)
  {
  }

  lemma {:induction false} NoWordsEnd(s: string)
    ensures s != "" && Words(s) == [] ==> !Alnum(s[|s| - 1])
  {
    if s != "" && !Alnum(s[0]) {
      NoWordsEnd(s[1..]);
    }
  }

  lemma {:induction false} SkipKeepsLast(s: string)
    ensures SkipOthers(s) != "" ==> SkipOthers(s)[|SkipOthers(s)| - 1] == s[|s| - 1]
  {
    if s != "" && !Alnum(s[0]) {
      SkipKeepsLast(s[1..]);
    }
  }

  lemma TrimStartOne(a: bool, t: string)
    requires t != "" && t[0] != '-'
    ensures TrimStart(HyphenIf(a) + t) == t
  {
    assert ("-" + t)[1..] == t && "" + t == t;
  }

  lemma TrimEndOne(j: string, b: bool)
    requires j != "" && j[|j| - 1] != '-'
    ensures TrimEnd(j + HyphenIf(b)) == j
  {
    assert (j + "-")[..|j|] == j && j + "" == j;
  }

  lemma TrimBetween(a: bool, j: string, b: bool)
    requires j != "" && j[0] != '-' && j[|j| - 1] != '-'
    ensures TrimEnd(TrimStart(HyphenIf(a) + j + HyphenIf(b))) == j
  {
    var t := j + HyphenIf(b);
    assert HyphenIf(a) + j + HyphenIf(b) == HyphenIf(a) + t;
    TrimStartOne(a, t);
    TrimEndOne(j, b);
  }

  /** The slug is exactly the words of the text joined by single hyphens. */
  lemma HyphenateJoinsWords(s: string)
    ensures Hyphenate(s) == Join(Words(s))
  {
    ReplaceRunsIs(s);
    WordsAreWords(s);
    if Words(s) == [] {
      assert "-"[1..] == "";
    } else {
      JoinEnds(Words(s));
      TrimBetween(!Alnum(s[0]), Join(Words(s)), !Alnum(s[|s| - 1]));
    }
  }

  // ---- the normal form ----

  predicate Normal(s: string) {
    && (forall i :: 0 <= i < |s| ==> Alnum(s[i]) || s[i] == '-')
    && (forall i :: 0 < i < |s| ==> s[i - 1] != '-' || s[i] != '-')
    && (s != "" ==> s[0] != '-' && s[|s| - 1] != '-')
  }

  lemma {:induction false} JoinIsNormal(words: seq<string>)
    requires forall w :: w in words ==> Word(w)
    ensures Normal(Join(words))
  {
    if words != [] {
      var w := words[0];
      JoinEnds(words);
      assert Word(w) && forall i :: 0 <= i < |w| ==> w[i] in w;
      if |words| > 1 {
        JoinIsNormal(words[1..]);
        JoinEnds(words[1..]);
      }
    }
  }

  lemma {:induction false} RunUpToHyphen(w: string, rest: string)
    requires forall c :: c in w ==> Alnum(c)
    requires rest == "" || !Alnum(rest[0])
    ensures Run(w + rest) == w
  {
    if w == "" {
      assert w + rest == rest;
    } else {
      RunUpToHyphen(w[1..], rest);
      assert (w + rest)[1..] == w[1..] + rest;
    }
  }

  lemma WordsOfCons(w: string, rest: string)
    requires Word(w) && (rest == "" || rest[0] == '-')
    ensures Words(w + rest) == [w] + Words(rest)
  {
    var j := w + rest;
    assert j[0] == w[0] && w[0] in w;
    RunUpToHyphen(w, rest);
    assert j[|w|..] == rest;
  }

  lemma WordsOfOneMore(w: string, t: string, words: seq<string>)
    requires Word(w) && Words(t) == words
    ensures Words(w + "-" + t) == [w] + words
  {
    WordsOfCons(w, "-" + t);
    assert w + "-" + t == w + ("-" + t);
    assert ("-" + t)[1..] == t;
  }

  lemma WordsOfOne(w: string)
    requires Word(w)
    ensures Words(w) == [w]
  {
    WordsOfCons(w, "");
    assert w + "" == w && [w] + Words("") == [w];
  }

  lemma {:induction false} WordsOfJoin(words: seq<string>)
    requires forall w :: w in words ==> Word(w)
    ensures Words(Join(words)) == words
  {
    if |words| == 1 {
      WordsOfOne(words[0]);
    } else if words != [] {
      var w, tail := words[0], words[1..];
      WordsOfJoin(tail);
      WordsOfOneMore(w, Join(tail), tail);
      assert words == [w] + tail;
    }
  }

  /** Normal text is a run of letters and digits, alone or before a hyphen and more normal text. */
  lemma NormalTail(s: string, n: nat)
    requires Normal(s) && s != "" && n == |Run(s)|
    ensures n > 0
    ensures n < |s| ==> s[n] == '-' && Normal(s[n + 1..]) && s[n + 1..] != "" && s == Run(s) + "-" + s[n + 1..]
  {
    if n < |s| {
      var tail := s[n + 1..];
      assert forall i :: 0 <= i < |tail| ==> tail[i] == s[n + 1 + i];
    }
  }

  lemma WordsAfterRun(s: string, n: nat)
    requires s != "" && Alnum(s[0]) && n == |Run(s)|
    ensures n == |s| ==> Words(s) == [s]
    ensures n < |s| ==> Words(s) == [Run(s)] + Words(s[n + 1..])
  {
    assert Words(s) == [Run(s)] + Words(s[n..]);
    if n < |s| {
      assert s[n..][1..] == s[n + 1..];
    } else {
      assert Run(s) == s && s[n..] == "";
    }
  }

  lemma {:induction false} NormalIsJoin(s: string)
    requires Normal(s)
    ensures Join(Words(s)) == s
    decreases |s|
  {
    if s != "" {
      var n := |Run(s)|;
      NormalTail(s, n);
      WordsAfterRun(s, n);
      if n < |s| {
        var tail := s[n + 1..];
        NormalIsJoin(tail);
        JoinCons(Run(s), Words(tail));
      }
    }
  }

  // ---- letters and digits ----

  function Alnums(s: string): string {
    if s == "" then "" else (if Alnum(s[0]) then [s[0]] else "") + Alnums(s[1..])
  }

  function Flat(words: seq<string>): string {
    if words == [] then "" else words[0] + Flat(words[1..])
  }

  lemma {:induction false} AlnumsOfRun(s: string)
    ensures Alnums(s) == Run(s) + Alnums(s[|Run(s)|..])
  {
    if s != "" && Alnum(s[0]) {
      AlnumsOfRun(s[1..]);
      OneMoreAlnum(s, Run(s[1..]));
    } else {
      assert Run(s) == "" && s[0..] == s;
    }
  }

  lemma OneMoreAlnum(s: string, r: string)
    requires s != "" && Alnum(s[0]) && |r| < |s| && Alnums(s[1..]) == r + Alnums(s[1..][|r|..])
    ensures Alnums(s) == [s[0]] + r + Alnums(s[1 + |r|..])
  {
    assert s[1 + |r|..] == s[1..][|r|..];
    assert [s[0]] + (r + Alnums(s[1 + |r|..])) == [s[0]] + r + Alnums(s[1 + |r|..]);
  }

  lemma {:induction false} AlnumsAreWords(s: string)
    ensures Alnums(s) == Flat(Words(s))
    decreases |s|
  {
    if s == "" {
    } else if Alnum(s[0]) {
      AlnumsOfRun(s);
      AlnumsAreWords(s[|Run(s)|..]);
      assert Words(s)[1..] == Words(s[|Run(s)|..]);
    } else {
      AlnumsAreWords(s[1..]);
    }
  }

  // ---- slugs ----

  /** The fold leaves text that is already a slug alone, as lower-case ASCII is left alone by every part of it. */
  ghost predicate KeepsSlugs(fold: string -> string) {
    forall s :: Normal(s) ==> fold(s) == s
  }

  /** A slug is in normal form and has the letters and digits of the folded text, in order. */
  lemma SlugIsNormal(fold: string -> string, s: string)
    ensures Normal(Slugify(fold, s))
    ensures Words(Slugify(fold, s)) == Words(fold(s))
    ensures Alnums(Slugify(fold, s)) == Alnums(fold(s))
  {
    var t := fold(s);
    HyphenateJoinsWords(t);
    WordsAreWords(t);
    JoinIsNormal(Words(t));
    WordsOfJoin(Words(t));
    AlnumsAreWords(t);
    AlnumsAreWords(Hyphenate(t));
  }

  lemma {:induction false} AlnumsMembers(s: string, c: char)
    ensures c in Alnums(s) <==> c in s && ('a' <= c <= 'z' || '0' <= c <= '9')
  {
    if s != "" {
      AlnumsMembers(s[1..], c);
      assert s == [s[0]] + s[1..];
    }
  }

  /** A slug is made of the small letters and digits of the folded text and of hyphens. */
  lemma SlugCharacters(fold: string -> string, s: string, c: char)
    requires c != '-'
    ensures c in Slugify(fold, s) <==> c in fold(s) && ('a' <= c <= 'z' || '0' <= c <= '9')
  {
    SlugIsNormal(fold, s);
    AlnumsMembers(fold(s), c);
    AlnumsMembers(Slugify(fold, s), c);
    var slug := Slugify(fold, s);
    if c in slug {
      var i :| 0 <= i < |slug| && slug[i] == c;
      assert Alnum(slug[i]);
    }
  }

  /** The texts a slug is made of itself are exactly those in normal form. */
  lemma FixedPointsAreNormal(fold: string -> string, s: string)
    requires KeepsSlugs(fold)
    ensures Slugify(fold, s) == s <==> Normal(s)
  {
    SlugIsNormal(fold, s);
    if Normal(s) {
      HyphenateJoinsWords(s);
      NormalIsJoin(s);
    }
  }

  lemma SlugifyIsIdempotent(fold: string -> string, s: string)
    requires KeepsSlugs(fold)
    ensures Slugify(fold, Slugify(fold, s)) == Slugify(fold, s)
  {
    SlugIsNormal(fold, s);
    FixedPointsAreNormal(fold, Slugify(fold, s));
  }
}
