/** The context compressor: filler removal and truncation only drop words, and the
    composed pipeline keeps every unit and never grows the token count. */
module Kompress {
  import Decimal

  // ---- Words ----

  /** Unicode White_Space, as `split_whitespace` uses it. */
  predicate IsSpace(c: char) {
    var n := c as int;
    9 <= n <= 13 || n == 0x20 || n == 0x85 || n == 0xA0 || n == 0x1680 || 0x2000 <= n <= 0x200A
    || n == 0x2028 || n == 0x2029 || n == 0x202F || n == 0x205F || n == 0x3000
  }

  /** Words of `s` when `word` is already under way. */
  function WordsFrom(word: string, s: string): seq<string>
    decreases |s|
  {
    if s == "" then (if word == "" then [] else [word])
    else if IsSpace(s[0]) then (if word == "" then [] else [word]) + WordsFrom("", s[1..])
    else WordsFrom(word + [s[0]], s[1..])
  }

  function Words(s: string): seq<string> {
    WordsFrom("", s)
  }

  predicate SpaceFree(w: string) {
    forall i :: 0 <= i < |w| ==> !IsSpace(w[i])
  }

  /** A space separates: the words around it are the words of the two sides. */
  lemma {:induction false} WordsSplit(word: string, a: string, b: string)
    ensures WordsFrom(word, a + " " + b) == WordsFrom(word, a) + Words(b)
    decreases |a|
  {
    var s := a + " " + b;
    if a == "" {
      assert s[1..] == b;
    } else {
      assert s[1..] == a[1..] + " " + b;
      if IsSpace(a[0]) {
        WordsSplit("", a[1..], b);
      } else {
        WordsSplit(word + [a[0]], a[1..], b);
      }
    }
  }

  // ---- Dropping words ----

  /** `xs` is `ys` with some of its words left out, every one of them in `may`. */
  ghost predicate Thinned(xs: seq<string>, ys: seq<string>, may: set<string>) {
    if ys == [] then xs == []
    else
      || (xs != [] && xs[0] == ys[0] && Thinned(xs[1..], ys[1..], may))
      || (ys[0] in may && Thinned(xs, ys[1..], may))
  }

  lemma {:induction false} ThinnedLength(xs: seq<string>, ys: seq<string>, may: set<string>)
    requires Thinned(xs, ys, may)
    ensures |xs| <= |ys|
    decreases |ys|
  {
    if ys != [] {
      if xs != [] && xs[0] == ys[0] && Thinned(xs[1..], ys[1..], may) {
        ThinnedLength(xs[1..], ys[1..], may);
      } else {
        ThinnedLength(xs, ys[1..], may);
      }
    }
  }

  lemma {:induction false} ThinnedRefl(xs: seq<string>, may: set<string>)
    ensures Thinned(xs, xs, may)
  {
    if xs != [] {
      ThinnedRefl(xs[1..], may);
    }
  }

  lemma {:induction false} ThinnedAway(ys: seq<string>, may: set<string>)
    requires forall w :: w in ys ==> w in may
    ensures Thinned([], ys, may)
  {
    if ys != [] {
      ThinnedAway(ys[1..], may);
    }
  }

  lemma {:induction false} ThinnedTrans(xs: seq<string>, ys: seq<string>, zs: seq<string>, may: set<string>)
    requires Thinned(xs, ys, may) && Thinned(ys, zs, may)
    ensures Thinned(xs, zs, may)
    decreases |ys| + |zs|
  {
    if zs != [] {
      if ys != [] && ys[0] == zs[0] && Thinned(ys[1..], zs[1..], may) {
        if xs != [] && xs[0] == ys[0] && Thinned(xs[1..], ys[1..], may) {
          ThinnedTrans(xs[1..], ys[1..], zs[1..], may);
        } else {
          ThinnedTrans(xs, ys[1..], zs[1..], may);
        }
      } else {
        ThinnedTrans(xs, ys, zs[1..], may);
      }
    }
  }

  lemma {:induction false} ThinnedConcat(a: seq<string>, b: seq<string>, c: seq<string>, d: seq<string>, may: set<string>)
    requires Thinned(a, b, may) && Thinned(c, d, may)
    ensures Thinned(a + c, b + d, may)
    decreases |b|
  {
    if b == [] {
      assert a + c == c && b + d == d;
    } else {
      assert (b + d)[1..] == b[1..] + d;
      if a != [] && a[0] == b[0] && Thinned(a[1..], b[1..], may) {
        ThinnedConcat(a[1..], b[1..], c, d, may);
        assert (a + c)[1..] == a[1..] + c;
      } else {
        ThinnedConcat(a, b[1..], c, d, may);
      }
    }
  }

  // ---- Filler replacement ----

  const FILLER := ["basically", "essentially", "actually", "just", "very", "really", "quite", "simply",
                   "obviously", "clearly", "of course", "you know"]

  /** `text.replace(pat, with)`: occurrences from left to right, none overlapping. */
  function Replace(s: string, pat: string, with: string): string
    requires pat != ""
    decreases |s|
  {
    if s == "" then ""
    else if pat <= s then with + Replace(s[|pat|..], pat, with)
    else [s[0]] + Replace(s[1..], pat, with)
  }

  ghost predicate AllIn(ws: seq<string>, may: set<string>) {
    forall w :: w in ws ==> w in may
  }

  /** Replacing a spaced filler by a space drops none but the filler's own words,
      wherever a word is already under way. */
  lemma {:induction false} ReplaceDropsFiller(word: string, s: string, filler: string, may: set<string>)
    requires AllIn(Words(filler), may)
    ensures Thinned(WordsFrom(word, Replace(s, " " + filler + " ", " ")), WordsFrom(word, s), may)
    decreases |s|
  {
    var pat := " " + filler + " ";
    if s == "" {
      ThinnedRefl(WordsFrom(word, s), may);
    } else if pat <= s {
      var rest := s[|pat|..];
      var kept := Replace(rest, pat, " ");
      var flush := if word == "" then [] else [word];
      assert s == " " + (filler + " " + rest);
      SpaceFirst(word, kept);
      SpaceFirst(word, filler + " " + rest);
      ReplaceDropsFiller("", rest, filler, may);
      FillerDropped(filler, rest, may);
      ThinnedTrans(Words(kept), Words(rest), Words(filler + " " + rest), may);
      ThinnedRefl(flush, may);
      ThinnedConcat(flush, flush, Words(kept), Words(filler + " " + rest), may);
    } else {
      ReplaceStep(word, s, filler, may);
    }
  }

  lemma SpaceFirst(word: string, b: string)
    ensures WordsFrom(word, " " + b) == (if word == "" then [] else [word]) + Words(b)
  {
    assert (" " + b)[1..] == b;
  }

  lemma FillerDropped(filler: string, rest: string, may: set<string>)
    requires AllIn(Words(filler), may)
    ensures Thinned(Words(rest), Words(filler + " " + rest), may)
  {
    WordsSplit("", filler, rest);
    ThinnedRefl(Words(rest), may);
    ThinnedAway(Words(filler), may);
    ThinnedConcat([], Words(filler), Words(rest), Words(rest), may);
    assert [] + Words(rest) == Words(rest);
  }

  lemma ReplaceStep(word: string, s: string, filler: string, may: set<string>)
    requires AllIn(Words(filler), may)
    requires s != "" && !(" " + filler + " " <= s)
    ensures Thinned(WordsFrom(word, Replace(s, " " + filler + " ", " ")), WordsFrom(word, s), may)
    decreases |s|, 0
  {
    var rest := Replace(s[1..], " " + filler + " ", " ");
    assert ([s[0]] + rest)[1..] == rest;
    if IsSpace(s[0]) {
      var flush := if word == "" then [] else [word];
      ReplaceDropsFiller("", s[1..], filler, may);
      ThinnedRefl(flush, may);
      ThinnedConcat(flush, flush, Words(rest), Words(s[1..]), may);
    } else {
      ReplaceDropsFiller(word + [s[0]], s[1..], filler, may);
    }
  }

  /** The rewriter's filler pass, one filler after the other. */
  function StripFillers(text: string, fillers: seq<string>): string {
    if fillers == [] then text
    else Replace(StripFillers(text, fillers[..|fillers| - 1]), " " + fillers[|fillers| - 1] + " ", " ")
  }

  /** The words the fillers are made of. */
  ghost function FillerWords(fillers: seq<string>): set<string> {
    set f, w | f in fillers && w in Words(f) :: w
  }

  /** The filler pass drops filler words and no others. */
  lemma {:induction false} StripDropsFillers(text: string, fillers: seq<string>, may: set<string>)
    requires FillerWords(fillers) <= may
    ensures Thinned(Words(StripFillers(text, fillers)), Words(text), may)
  {
    if fillers == [] {
      ThinnedRefl(Words(text), may);
    } else {
      var before, f := fillers[..|fillers| - 1], fillers[|fillers| - 1];
      assert f in fillers && forall g :: g in before ==> g in fillers;
      assert AllIn(Words(f), FillerWords(fillers));
      StripDropsFillers(text, before, may);
      ReplaceDropsFiller("", StripFillers(text, before), f, may);
      ThinnedTrans(Words(StripFillers(text, fillers)), Words(StripFillers(text, before)), Words(text), may);
    }
  }

  // ---- Fillers left standing ----

  ghost predicate Contains(s: string, pat: string) {
    exists i :: 0 <= i <= |s| && pat <= s[i..]
  }

  lemma ContainsStep(s: string, pat: string)
    requires s != "" && pat != ""
    ensures Contains(s, pat) <==> pat <= s || Contains(s[1..], pat)
  {
    assert s[0..] == s;
    if i :| 0 < i <= |s| && pat <= s[i..] {
      assert s[1..][i - 1..] == s[i..];
    }
    if i :| 0 <= i <= |s[1..]| && pat <= s[1..][i..] {
      assert s[i + 1..] == s[1..][i..];
    }
  }

  predicate OneWord(f: string) {
    f != "" && ' ' !in f
  }

  /** Replacing keeps what stands before the first space, and that a space follows. */
  lemma {:induction false} FirstWordStays(w: string, s: string, f: string)
    requires ' ' !in w
    ensures w + " " <= Replace(s, " " + f + " ", " ") <==> w + " " <= s
    decreases |s|
  {
    var pat := " " + f + " ";
    var r := Replace(s, pat, " ");
    if s != "" {
      assert (w + " ")[0] == if w == "" then ' ' else w[0];
      assert pat <= s ==> s[0] == ' ';
      assert r[0] == s[0];
      if w == "" {
        assert s[..1] == [s[0]] && r[..1] == [r[0]];
      } else if s[0] == w[0] {
        FirstWordStays(w[1..], s[1..], f);
        PrefixStep(w, s);
        PrefixStep(w, r);
      }
    }
  }

  lemma PrefixStep(w: string, s: string)
    requires w != "" && s != "" && s[0] == w[0]
    ensures w + " " <= s <==> w[1..] + " " <= s[1..]
  {
    assert (w + " ")[1..] == w[1..] + " ";
    assert s == [s[0]] + s[1..];
    assert w + " " == [w[0]] + (w[1..] + " ");
  }

  /** After the pass a filler stands at the front exactly if it stood there twice. */
  lemma FrontSurvives(s: string, f: string)
    requires OneWord(f)
    ensures " " + f + " " <= Replace(s, " " + f + " ", " ") <==> " " + f + " " + f + " " <= s
  {
    var pat := " " + f + " ";
    var twice := " " + f + " " + f + " ";
    if pat <= s {
      var rest := s[|pat|..];
      FirstWordStays(f, rest, f);
      assert s == pat + rest && twice == pat + (f + " ");
      assert pat == " " + (f + " ");
      BehindPrefix(pat, f + " ", rest);
      BehindPrefix(" ", f + " ", Replace(rest, pat, " "));
    } else if s != "" && s[0] == ' ' {
      FirstWordStays(f, s[1..], f);
      assert s == " " + s[1..] && pat == " " + (f + " ");
      BehindPrefix(" ", f + " ", s[1..]);
      BehindPrefix(" ", f + " ", Replace(s[1..], pat, " "));
      assert pat <= twice;
    } else {
      assert pat[0] == ' ' && twice[0] == ' ';
    }
  }

  lemma BehindPrefix(p: string, x: string, y: string)
    ensures p + x <= p + y <==> x <= y
  {
    assert (p + y)[|p|..] == y && (p + x)[|p|..] == x;
    if p + x <= p + y {
      assert forall i :: 0 <= i < |x| ==> x[i] == (p + x)[|p| + i] == (p + y)[|p| + i] == y[i];
    }
  }

  /** A one-word filler is still in the text after its pass if and only if the text had
      it twice in a row, one space between. */
  lemma {:induction false} FillerSurvivesIffDoubled(s: string, f: string)
    requires OneWord(f)
    ensures Contains(Replace(s, " " + f + " ", " "), " " + f + " ") <==> Contains(s, " " + f + " " + f + " ")
    decreases |s|
  {
    var pat, twice := " " + f + " ", " " + f + " " + f + " ";
    FrontSurvives(s, f);
    if s == "" {
    } else {
      ContainsStep(Replace(s, pat, " "), pat);
      if pat <= s {
        FillerSurvivesIffDoubled(s[|pat|..], f);
        SkipFiller(s, f);
      } else {
        FillerSurvivesIffDoubled(s[1..], f);
        ContainsStep(s, twice);
      }
    }
  }

  /** Twice in a row begins at the first of two fillers or behind the first. */
  lemma SkipFiller(s: string, f: string)
    requires OneWord(f) && " " + f + " " <= s
    ensures
      var pat, twice := " " + f + " ", " " + f + " " + f + " ";
      Contains(s, twice) <==> twice <= s || Contains(s[|pat|..], twice)
  {
    var pat, twice := " " + f + " ", " " + f + " " + f + " ";
    var n := |pat|;
    if i :| 0 <= i <= |s| && twice <= s[i..] {
      if i >= n {
        assert s[n..][i - n..] == s[i..];
      } else if i > 0 {
        assert s[i] == twice[0] == ' ';
        assert pat[i] == s[i];
        assert i == n - 1;
        forall j | 0 <= j < |twice|
          ensures s[j] == twice[j]
        {
          if j >= n - 1 {
            assert twice[j - (n - 1)] == s[i..][j - (n - 1)] == s[j];
          }
        }
      } else {
        assert s[0..] == s;
      }
    }
    if i :| 0 <= i <= |s[n..]| && twice <= s[n..][i..] {
      assert s[i + n..] == s[n..][i..];
    }
    assert s[0..] == s;
  }

  // Fillers of two words, u and v, leave themselves standing in one more way.

  /** Text in which the pass leaves the two-word filler: twice in a row, or one inside
      the other. */
  function Doubled(u: string, v: string): string {
    " " + u + " " + v + " " + u + " " + v + " "
  }

  function Nested(u: string, v: string): string {
    " " + u + " " + u + " " + v + " " + v + " "
  }

  lemma FirstWordUnique(u: string, v: string, x: string)
    requires ' ' !in u && ' ' !in v && u + " " <= x && v + " " <= x
    ensures u == v
  {
    assert x[|u|] == ' ' && x[|v|] == ' ';
    assert forall j :: 0 <= j < |u| ==> x[j] == u[j];
    assert forall j :: 0 <= j < |v| ==> x[j] == v[j];
    assert u == x[..|u|] && v == x[..|v|];
  }

  lemma {:induction false} FirstWordCopied(w: string, s: string, f: string)
    requires ' ' !in w && w <= s
    ensures Replace(s, " " + f + " ", " ") == w + Replace(s[|w|..], " " + f + " ", " ")
    decreases |w|
  {
    if w != "" {
      FirstWordCopied(w[1..], s[1..], f);
      assert s[1..][|w[1..]|..] == s[|w|..];
      assert w == [w[0]] + w[1..];
    } else {
      assert s[0..] == s;
    }
  }

  lemma PhraseShapes(u: string, v: string)
    ensures
      var f := u + " " + v;
      && f + " " == u + (" " + (v + " "))
      && u + " " + f + " " + v + " " == u + (" " + f + " " + (v + " "))
  {
  }

  lemma OpensWithWord(w: string, x: string, t: string)
    requires w + (" " + x) <= t
    ensures w + " " <= t
  {
    assert w + (" " + x) == w + " " + x;
  }

  /** When the phrase opens the text after the pass. */
  lemma PhraseOpens(t: string, u: string, v: string)
    requires OneWord(u) && OneWord(v) && u != v
    ensures
      var f := u + " " + v;
      f + " " <= Replace(t, " " + f + " ", " ") <==> f + " " <= t || u + " " + f + " " + v + " " <= t
  {
    var f := u + " " + v;
    var pat := " " + f + " ";
    var r := Replace(t, pat, " ");
    PhraseShapes(u, v);
    FirstWordStays(u, t, f);
    if u + " " <= t {
      PhraseGoesOn(t, t[|u|..], u, v);
    } else {
      assert pat + (v + " ") == " " + (f + " " + (v + " "));
      if f + " " <= r {
        OpensWithWord(u, v + " ", r);
      }
      if u + (" " + (v + " ")) <= t {
        OpensWithWord(u, v + " ", t);
      }
      if u + (pat + (v + " ")) <= t {
        OpensWithWord(u, f + " " + (v + " "), t);
      }
    }
  }

  lemma PhraseGoesOn(t: string, rest: string, u: string, v: string)
    requires OneWord(u) && OneWord(v) && u != v && t == u + rest && u + " " <= t
    ensures
      var f := u + " " + v;
      var pat := " " + f + " ";
      u + (" " + (v + " ")) <= Replace(t, pat, " ") <==> u + (" " + (v + " ")) <= t || u + (pat + (v + " ")) <= t
  {
    var f := u + " " + v;
    var pat := " " + f + " ";
    assert t[|u|..] == rest && rest[0] == t[|u|] == ' ';
    FirstWordCopied(u, t, f);
    BehindPrefix(u, " " + (v + " "), rest);
    BehindPrefix(u, " " + (v + " "), Replace(rest, pat, " "));
    BehindPrefix(u, pat + (v + " "), rest);
    PhraseSecond(rest, u, v);
  }

  /** The second word, read from the space before it. */
  lemma PhraseSecond(rest: string, u: string, v: string)
    requires OneWord(u) && OneWord(v) && u != v && rest != "" && rest[0] == ' '
    ensures
      var f := u + " " + v;
      var pat := " " + f + " ";
      " " + (v + " ") <= Replace(rest, pat, " ") <==> " " + (v + " ") <= rest || pat + (v + " ") <= rest
  {
    var f := u + " " + v;
    var pat := " " + f + " ";
    assert rest == " " + rest[1..];
    BehindPrefix(" ", v + " ", rest[1..]);
    if pat <= rest {
      PhraseReplaced(rest, u, v);
    } else {
      FirstWordStays(v, rest[1..], f);
      BehindPrefix(" ", v + " ", Replace(rest[1..], pat, " "));
      assert pat <= pat + (v + " ");
    }
  }

  lemma PhraseReplaced(rest: string, u: string, v: string)
    requires OneWord(u) && OneWord(v) && u != v && " " + (u + " " + v) + " " <= rest
    ensures
      var pat := " " + (u + " " + v) + " ";
      && (" " + (v + " ") <= Replace(rest, pat, " ") <==> pat + (v + " ") <= rest)
      && !(" " + (v + " ") <= rest)
  {
    var f := u + " " + v;
    var pat := " " + f + " ";
    var tail := rest[|pat|..];
    assert rest == pat + tail;
    FirstWordStays(v, tail, f);
    BehindPrefix(" ", v + " ", Replace(tail, pat, " "));
    BehindPrefix(pat, v + " ", tail);
    if " " + (v + " ") <= rest {
      SecondIsNotFirst(rest, u, v);
    }
  }

  lemma SecondIsNotFirst(rest: string, u: string, v: string)
    requires OneWord(u) && OneWord(v) && " " + (u + " " + v) + " " <= rest && " " + (v + " ") <= rest
    ensures u == v
  {
    assert " " + (u + " " + v) + " " == " " + (u + " " + (v + " "));
    assert rest == " " + rest[1..];
    BehindPrefix(" ", u + " " + (v + " "), rest[1..]);
    BehindPrefix(" ", v + " ", rest[1..]);
    FirstWordUnique(u, v, rest[1..]);
  }

  /** When the spaced phrase stands at the front after the pass. */
  lemma PhraseFront(s: string, u: string, v: string)
    requires OneWord(u) && OneWord(v) && u != v
    ensures
      var f := u + " " + v;
      var pat := " " + f + " ";
      pat <= Replace(s, pat, " ") <==>
        if pat <= s then Doubled(u, v) <= s || pat + (u + " " + f + " " + v + " ") <= s else Nested(u, v) <= s
  {
    var f := u + " " + v;
    var pat := " " + f + " ";
    FrontShapes(u, v);
    if pat <= s {
      var rest := s[|pat|..];
      assert s == pat + rest;
      PhraseOpens(rest, u, v);
      BehindPrefix(" ", f + " ", Replace(rest, pat, " "));
      BehindPrefix(pat, f + " ", rest);
      BehindPrefix(pat, u + " " + f + " " + v + " ", rest);
    } else {
      PhraseNewlyAtFront(s, u, v);
    }
  }

  lemma FrontShapes(u: string, v: string)
    ensures
      var f := u + " " + v;
      var pat := " " + f + " ";
      && pat == " " + (f + " ") && Doubled(u, v) == pat + (f + " ")
      && Nested(u, v) == " " + (u + " " + f + " " + v + " ")
  {
  }

  lemma PhraseNewlyAtFront(s: string, u: string, v: string)
    requires OneWord(u) && OneWord(v) && u != v && !(" " + (u + " " + v) + " " <= s)
    ensures
      var pat := " " + (u + " " + v) + " ";
      pat <= Replace(s, pat, " ") <==> Nested(u, v) <= s
  {
    var f := u + " " + v;
    var pat := " " + f + " ";
    FrontShapes(u, v);
    if s != "" && s[0] == ' ' {
      assert s == " " + s[1..];
      PhraseOpens(s[1..], u, v);
      BehindPrefix(" ", f + " ", Replace(s[1..], pat, " "));
      BehindPrefix(" ", f + " ", s[1..]);
      BehindPrefix(" ", u + " " + f + " " + v + " ", s[1..]);
    } else {
      assert pat[0] == ' ' && Nested(u, v)[0] == ' ';
    }
  }

  ghost predicate ContainsEither(s: string, u: string, v: string) {
    Contains(s, Doubled(u, v)) || Contains(s, Nested(u, v))
  }

  /** A filler of two different words is still in the text after its pass if and only if
      the text had it twice in a row, or one standing inside the other. */
  lemma {:induction false} PhraseSurvivesIff(s: string, u: string, v: string)
    requires OneWord(u) && OneWord(v) && u != v
    ensures
      var pat := " " + (u + " " + v) + " ";
      Contains(Replace(s, pat, " "), pat) <==> ContainsEither(s, u, v)
    decreases |s|
  {
    var pat := " " + (u + " " + v) + " ";
    if s == "" {
    } else {
      PhraseFront(s, u, v);
      ContainsStep(Replace(s, pat, " "), pat);
      if pat <= s {
        PhraseSurvivesIff(s[|pat|..], u, v);
        SkipPhrase(s, u, v);
      } else {
        PhraseSurvivesIff(s[1..], u, v);
        ContainsStep(s, Doubled(u, v));
        ContainsStep(s, Nested(u, v));
        assert Doubled(u, v) == pat + (u + " " + v + " ");
      }
    }
  }

  lemma SkipPhrase(s: string, u: string, v: string)
    requires OneWord(u) && OneWord(v) && u != v && " " + (u + " " + v) + " " <= s
    ensures
      var f := u + " " + v;
      var pat := " " + f + " ";
      ContainsEither(s, u, v) <==>
        Doubled(u, v) <= s || pat + (u + " " + f + " " + v + " ") <= s || ContainsEither(s[|pat|..], u, v)
  {
    var f := u + " " + v;
    var wide := " " + f + " " + (u + " " + f + " " + v + " ");
    SkipOne(s, u, v, Doubled(u, v));
    SkipOne(s, u, v, Nested(u, v));
    if Doubled(u, v) <= s {
      assert s[0..] == s;
    }
    if wide <= s {
      WideHasNested(s, u, v);
    }
  }

  lemma WideHasNested(s: string, u: string, v: string)
    requires
      var f := u + " " + v;
      " " + f + " " + (u + " " + f + " " + v + " ") <= s
    ensures Contains(s, Nested(u, v))
  {
    var f := u + " " + v;
    var wide := " " + f + " " + (u + " " + f + " " + v + " ");
    FrontShapes(u, v);
    assert wide == " " + f + Nested(u, v);
    assert s == wide + s[|wide|..];
    assert s[|f| + 1..] == Nested(u, v) + s[|wide|..];
  }

  lemma SkipOne(s: string, u: string, v: string, d: string)
    requires OneWord(u) && OneWord(v) && u != v && " " + (u + " " + v) + " " <= s
    requires d == Doubled(u, v) || d == Nested(u, v)
    ensures
      var f := u + " " + v;
      var pat := " " + f + " ";
      && (Contains(s, d) ==>
           Doubled(u, v) <= s || pat + (u + " " + f + " " + v + " ") <= s || Contains(s[|pat|..], d))
      && (Contains(s[|pat|..], d) ==> Contains(s, d))
  {
    var n := |" " + (u + " " + v) + " "|;
    if i :| 0 <= i <= |s| && d <= s[i..] {
      if i >= n {
        assert s[n..][i - n..] == s[i..];
      } else {
        PhraseOverlap(s, u, v, d, i);
      }
    }
    if i :| 0 <= i <= |s[n..]| && d <= s[n..][i..] {
      assert s[i + n..] == s[n..][i..];
    }
  }

  /** A double that begins inside the filler at the front begins with it or at its end. */
  lemma PhraseOverlap(s: string, u: string, v: string, d: string, i: nat)
    requires OneWord(u) && OneWord(v) && u != v && " " + (u + " " + v) + " " <= s
    requires d == Doubled(u, v) || d == Nested(u, v)
    requires i < |" " + (u + " " + v) + " "| && i <= |s| && d <= s[i..]
    ensures Doubled(u, v) <= s || " " + (u + " " + v) + " " + (u + " " + (u + " " + v) + " " + v + " ") <= s
  {
    var pat := " " + (u + " " + v) + " ";
    assert s[i] == d[0] == ' ' == pat[i];
    if i == 0 {
      assert s[0..] == s;
      if d == Nested(u, v) {
        NestedIsNotPhrase(s, u, v);
      }
    } else if i == |u| + 1 {
      var tail := DoubleOpens(u, v, d);
      MiddleIsNotPhrase(s, u, v, tail);
    } else {
      assert i == |pat| - 1;
      EndOverlap(s, u, v, d);
    }
  }

  lemma NestedIsNotPhrase(s: string, u: string, v: string)
    requires OneWord(u) && OneWord(v) && " " + (u + " " + v) + " " <= s && Nested(u, v) <= s
    ensures u == v
  {
    var n := |u| + 2;
    assert " " + (u + " " + v) + " " == " " + u + " " + (v + " ");
    assert Nested(u, v) == " " + u + " " + (u + " " + v + " " + v + " ");
    assert s == " " + u + " " + s[n..];
    BehindPrefix(" " + u + " ", v + " ", s[n..]);
    BehindPrefix(" " + u + " ", u + " " + v + " " + v + " ", s[n..]);
    assert u + " " + v + " " + v + " " == u + " " + (v + " " + v + " ");
    FirstWordUnique(u, v, s[n..]);
  }

  lemma DoubleOpens(u: string, v: string, d: string) returns (tail: string)
    requires d == Doubled(u, v) || d == Nested(u, v)
    ensures d == " " + (u + " " + tail)
  {
    tail := d[|u| + 2..];
  }

  lemma MiddleIsNotPhrase(s: string, u: string, v: string, tail: string)
    requires OneWord(u) && OneWord(v) && " " + (u + " " + v) + " " <= s
    requires |u| + 1 <= |s| && " " + (u + " " + tail) <= s[|u| + 1..]
    ensures u == v
  {
    var n := |u| + 1;
    var x := s[n + 1..];
    assert " " + (u + " " + v) + " " == " " + u + (" " + (v + " "));
    assert s == " " + u + s[n..];
    BehindPrefix(" " + u, " " + (v + " "), s[n..]);
    assert s[n..] == " " + x;
    BehindPrefix(" ", v + " ", x);
    BehindPrefix(" ", u + " " + tail, x);
    FirstWordUnique(u, v, x);
  }

  lemma EndOverlap(s: string, u: string, v: string, d: string)
    requires " " + (u + " " + v) + " " <= s
    requires d == Doubled(u, v) || d == Nested(u, v)
    requires d <= s[|u| + |v| + 2..]
    ensures Doubled(u, v) <= s || " " + (u + " " + v) + " " + (u + " " + (u + " " + v) + " " + v + " ") <= s
  {
    var pat := " " + (u + " " + v) + " ";
    var rest := s[|pat|..];
    assert s == pat + rest && s[|pat| - 1..] == " " + rest;
    if d == Doubled(u, v) {
      DoubledAtEnd(rest, u, v);
    } else {
      FrontShapes(u, v);
      BehindPrefix(" ", u + " " + (u + " " + v) + " " + v + " ", rest);
      BehindPrefix(pat, u + " " + (u + " " + v) + " " + v + " ", rest);
    }
  }

  lemma DoubledAtEnd(rest: string, u: string, v: string)
    requires Doubled(u, v) <= " " + rest
    ensures Doubled(u, v) <= " " + (u + " " + v) + " " + rest
  {
    var once := u + " " + v + " ";
    assert Doubled(u, v) == " " + (once + once);
    assert Doubled(u, v) == " " + (u + " " + v) + " " + once;
    BehindPrefix(" ", once + once, rest);
    assert once <= once + once;
    BehindPrefix(" " + (u + " " + v) + " ", once, rest);
  }

  /** The two results cover the list: a filler is one word, or two different ones. */
  lemma FillersAreOneOrTwoWords(f: string)
    requires f in FILLER
    ensures
      OneWord(f) ||
      (OneWord("of") && OneWord("course") && f == "of" + " " + "course") ||
      (OneWord("you") && OneWord("know") && f == "you" + " " + "know")
  {
  }

  // ---- The whole pass ----

  /** Fillers are replaced one after the other, in the order of the list. */
  lemma {:induction false} StripInOrder(text: string, a: seq<string>, b: seq<string>)
    ensures StripFillers(text, a + b) == StripFillers(StripFillers(text, a), b)
  {
    if b == [] {
      assert a + b == a;
    } else {
      var n := |b| - 1;
      StripInOrder(text, a, b[..n]);
      assert (a + b)[..|a + b| - 1] == a + b[..n];
    }
  }

  lemma StripOne(text: string, f: string)
    ensures StripFillers(text, [f]) == Replace(text, " " + f + " ", " ")
  {
    assert [f][..0] == [];
  }

  /** Where the pass of `g` leaves the one-word filler `f` standing at the front. */
  lemma OtherFront(s: string, f: string, g: string)
    requires OneWord(f)
    ensures
      var pat := " " + g + " ";
      " " + f + " " <= Replace(s, pat, " ") <==> if pat <= s then f + " " <= s[|pat|..] else " " + f + " " <= s
  {
    var pat := " " + g + " ";
    assert " " + f + " " == " " + (f + " ");
    if pat <= s {
      var rest := s[|pat|..];
      FirstWordStays(f, rest, g);
      BehindPrefix(" ", f + " ", Replace(rest, pat, " "));
    } else if s != "" && s[0] == ' ' {
      FirstWordStays(f, s[1..], g);
      assert s == " " + s[1..];
      BehindPrefix(" ", f + " ", s[1..]);
      BehindPrefix(" ", f + " ", Replace(s[1..], pat, " "));
    } else {
      assert (" " + f + " ")[0] == ' ';
    }
  }

  lemma InsideIsContained(s: string, f: string, g: string, i: nat)
    requires " " + g + " " <= s && i <= |s| && " " + f + " " <= s[i..] && i + |f| <= |g|
    ensures Contains(" " + g + " ", " " + f + " ")
  {
    assert " " + f + " " <= (" " + g + " ")[i..];
  }

  lemma CrossingHasSpace(s: string, f: string, g: string, i: nat)
    requires " " + g + " " <= s && i <= |s| && " " + f + " " <= s[i..] && |g| - |f| < i <= |g|
    ensures ' ' in f
  {
    assert s[|g| + 1] == ' ' == (" " + f + " ")[|g| + 1 - i];
    assert f[|g| - i] == ' ';
  }

  /** A one-word filler that does not begin inside another one at the front begins at
      that one's end or behind it. */
  lemma SkipOther(s: string, f: string, g: string)
    requires OneWord(f) && " " + g + " " <= s && !Contains(" " + g + " ", " " + f + " ")
    ensures
      var n := |" " + g + " "|;
      Contains(s, " " + f + " ") <==> f + " " <= s[n..] || Contains(s[n..], " " + f + " ")
  {
    var pat, p := " " + g + " ", " " + f + " ";
    var n := |pat|;
    assert s == pat + s[n..] && s[n - 1..] == " " + s[n..];
    assert p == " " + (f + " ");
    BehindPrefix(" ", f + " ", s[n..]);
    if i :| 0 <= i <= |s| && p <= s[i..] {
      if i >= n {
        assert s[n..][i - n..] == s[i..];
      } else if i + |p| <= n {
        InsideIsContained(s, f, g, i);
      } else if i < n - 1 {
        CrossingHasSpace(s, f, g, i);
      }
    }
    if i :| 0 <= i <= |s[n..]| && p <= s[n..][i..] {
      assert s[i + n..] == s[n..][i..];
    }
  }

  /** The pass of another filler neither removes a one-word filler nor makes a new one. */
  lemma {:induction false} OtherPassKeeps(s: string, f: string, g: string)
    requires OneWord(f) && !Contains(" " + g + " ", " " + f + " ")
    ensures Contains(Replace(s, " " + g + " ", " "), " " + f + " ") <==> Contains(s, " " + f + " ")
    decreases |s|
  {
    var pat, p := " " + g + " ", " " + f + " ";
    if s == "" {
    } else {
      OtherFront(s, f, g);
      ContainsStep(Replace(s, pat, " "), p);
      if pat <= s {
        OtherPassKeeps(s[|pat|..], f, g);
        SkipOther(s, f, g);
      } else {
        OtherPassKeeps(s[1..], f, g);
        ContainsStep(s, p);
      }
    }
  }

  lemma {:induction false} LaterPassesKeep(text: string, f: string, after: seq<string>)
    requires OneWord(f) && forall g :: g in after ==> !Contains(" " + g + " ", " " + f + " ")
    ensures Contains(StripFillers(text, after), " " + f + " ") <==> Contains(text, " " + f + " ")
  {
    if after != [] {
      var n := |after| - 1;
      LaterPassesKeep(text, f, after[..n]);
      OtherPassKeeps(StripFillers(text, after[..n]), f, after[n]);
    }
  }

  /** After the whole pass over any list, a one-word filler of it that no later filler
      contains is still in the text if and only if its own pass met it twice in a row. */
  lemma FillerRemainsIff(text: string, before: seq<string>, f: string, after: seq<string>)
    requires OneWord(f) && forall g :: g in after ==> !Contains(" " + g + " ", " " + f + " ")
    ensures Contains(StripFillers(text, before + [f] + after), " " + f + " ") <==>
      Contains(StripFillers(text, before), " " + f + " " + f + " ")
  {
    var met := StripFillers(text, before);
    StripInOrder(text, before + [f], after);
    StripInOrder(text, before, [f]);
    StripOne(met, f);
    FillerSurvivesIffDoubled(met, f);
    LaterPassesKeep(Replace(met, " " + f + " ", " "), f, after);
  }

  /** A one-word filler is contained in another filler only as one of its words. */
  lemma ContainedIsWord(f: string, u: string, v: string)
    requires OneWord(f) && OneWord(u) && OneWord(v)
    ensures Contains(" " + u + " ", " " + f + " ") ==> f == u
    ensures Contains(" " + (u + " " + v) + " ", " " + f + " ") ==> f == u || f == v
  {
    var p := " " + f + " ";
    assert p == " " + (f + " ");
    if i :| 0 <= i <= |" " + u + " "| && p <= (" " + u + " ")[i..] {
      InWord(f, u, "", i);
    }
    if i :| 0 <= i <= |" " + (u + " " + v) + " "| && p <= (" " + (u + " " + v) + " ")[i..] {
      assert " " + (u + " " + v) + " " == " " + u + " " + (v + " ");
      if i <= |u| {
        InWord(f, u, v + " ", i);
      } else {
        assert (" " + u + " " + (v + " "))[|u| + 1..] == " " + v + " " + "";
        InWord(f, v, "", i - |u| - 1);
      }
    }
  }

  lemma InWord(f: string, u: string, rest: string, i: nat)
    requires OneWord(f) && OneWord(u) && i <= |u| + 1
    requires " " + f + " " <= (" " + u + " " + rest)[i..] && (i <= |u| || rest == "")
    ensures f == u
  {
    var s := " " + u + " " + rest;
    assert s[i] == (" " + f + " ")[0] == ' ';
    assert i == 0 || i == |u| + 1;
    assert s[0..] == s;
    assert " " + f + " " == " " + (f + " ") && s == " " + (u + " " + rest);
    BehindPrefix(" ", f + " ", u + " " + rest);
    FirstWordUnique(f, u, u + " " + rest);
  }

  // ---- Truncation ----

  const MAX_TOKENS: nat := 60
  const ELLIPSIS: char := '\U{2026}'

  function JoinWords(ws: seq<string>): string {
    if ws == [] then "" else if |ws| == 1 then ws[0] else ws[0] + " " + JoinWords(ws[1..])
  }

  /** At most `max` words; cut text ends in an ellipsis glued to its last word. */
  function Truncate(text: string, max: nat): string {
    if |Words(text)| > max then JoinWords(Words(text)[..max]) + [ELLIPSIS] else text
  }

  lemma {:induction false} WordsOfOne(word: string, w: string)
    requires SpaceFree(w) && word + w != ""
    ensures WordsFrom(word, w) == [word + w]
    decreases |w|
  {
    if w == "" {
      assert word + w == word;
    } else {
      WordsOfOne(word + [w[0]], w[1..]);
      assert word + [w[0]] + w[1..] == word + w;
    }
  }

  /** Every word is non-empty and free of spaces. */
  lemma {:induction false} WordsAreWords(word: string, s: string)
    requires SpaceFree(word)
    ensures forall i :: 0 <= i < |WordsFrom(word, s)| ==> WordsFrom(word, s)[i] != "" && SpaceFree(WordsFrom(word, s)[i])
    decreases |s|
  {
    if s != "" {
      if IsSpace(s[0]) {
        WordsAreWords("", s[1..]);
      } else {
        WordsAreWords(word + [s[0]], s[1..]);
      }
    }
  }

  /** Joining words and splitting again gives them back, the last one with the ellipsis. */
  lemma {:induction false} JoinedWords(ws: seq<string>)
    requires ws != [] && forall i :: 0 <= i < |ws| ==> ws[i] != "" && SpaceFree(ws[i])
    ensures Words(JoinWords(ws) + [ELLIPSIS]) == ws[..|ws| - 1] + [ws[|ws| - 1] + [ELLIPSIS]]
  {
    if |ws| == 1 {
      WordsOfOne("", ws[0] + [ELLIPSIS]);
      assert "" + (ws[0] + [ELLIPSIS]) == ws[0] + [ELLIPSIS];
    } else {
      var tail := ws[1..];
      var rest := JoinWords(tail) + [ELLIPSIS];
      JoinedWords(tail);
      WordThenRest(ws[0], rest);
      assert JoinWords(ws) + [ELLIPSIS] == ws[0] + " " + rest;
      assert ws[..|ws| - 1] == [ws[0]] + tail[..|tail| - 1];
    }
  }

  /** Joined words are set apart by single spaces. */
  lemma {:induction false} JoinedText(a: seq<string>, b: seq<string>)
    requires a != [] && b != []
    ensures JoinWords(a + b) == JoinWords(a) + " " + JoinWords(b)
    ensures JoinWords([a[0]]) == a[0]
  {
    var all := a + b;
    assert all[1..] == a[1..] + b && all[0] == a[0];
    if |a| > 1 {
      JoinedText(a[1..], b);
    } else {
      assert a[1..] + b == b;
    }
  }

  lemma WordThenRest(w: string, rest: string)
    requires w != "" && SpaceFree(w)
    ensures Words(w + " " + rest) == [w] + Words(rest)
  {
    WordsSplit("", w, rest);
    WordsOfOne("", w);
    assert "" + w == w;
  }

  // ---- The stages ----

  /** A unit of context; the score is a real, the layer constant is left out. */
  datatype Unit = Unit(id: string, content: string, score: real, tokenCount: nat, critical: bool)

  /** The two syntactic tests on a unit's text, as the caller's parameters. */
  datatype Rules = Rules(critical: string -> bool, mustKeep: string -> bool)

  const BASE_SCORE := 0.5
  const THRESHOLD := 0.35
  const LAMBDA := 3.0
  const BOOST := 0.3

  function ComposeUnit(i: nat, content: string, rules: Rules): Unit {
    Unit("unit-" + Decimal.Digits(i), content, BASE_SCORE, |Words(content)|, rules.critical(content))
  }

  function Compose(inputs: seq<string>, rules: Rules): (units: seq<Unit>)
    ensures |units| == |inputs|
  {
    seq(|inputs|, i requires 0 <= i < |inputs| => ComposeUnit(i, inputs[i], rules))
  }

  function EffectiveScore(score: real, critical: bool): real {
    if critical then (if score + BOOST < 1.0 then score + BOOST else 1.0) else score
  }

  function AsymmetricLoss(score: real, threshold: real, penalty: real): real {
    if score < threshold then penalty * (threshold - score) else score - threshold
  }

  predicate Keeps(u: Unit, rules: Rules, threshold: real, penalty: real) {
    var score := EffectiveScore(u.score, rules.critical(u.content));
    rules.mustKeep(u.content) || score > threshold || AsymmetricLoss(score, threshold, penalty) < penalty * threshold
  }

  function Prune(units: seq<Unit>, rules: Rules): seq<Unit> {
    if units == [] then []
    else (if Keeps(units[0], rules, THRESHOLD, LAMBDA) then [units[0]] else []) + Prune(units[1..], rules)
  }

  function RewriteText(text: string): string {
    Truncate(StripFillers(text, FILLER), MAX_TOKENS)
  }

  function RewriteUnit(u: Unit): Unit {
    u.(content := RewriteText(u.content), tokenCount := |Words(RewriteText(u.content))|)
  }

  /** The rewriter's work on one unit, filler by filler, then the cut. */
  method Rewrite(u: Unit) returns (r: Unit)
    ensures r == RewriteUnit(u)
  {
    var text := u.content;
    for i := 0 to |FILLER|
      invariant text == StripFillers(u.content, FILLER[..i])
    {
      assert FILLER[..i + 1][..i] == FILLER[..i];
      text := Replace(text, " " + FILLER[i] + " ", " ");
    }
    assert FILLER[..|FILLER|] == FILLER;
    var words := Words(text);
    if |words| > MAX_TOKENS {
      text := JoinWords(words[..MAX_TOKENS]) + [ELLIPSIS];
    }
    r := u.(tokenCount := |Words(text)|, content := text);
  }

  function RewriteAll(units: seq<Unit>): (r: seq<Unit>)
    ensures |r| == |units|
  {
    seq(|units|, i requires 0 <= i < |units| => RewriteUnit(units[i]))
  }

  function TotalTokens(units: seq<Unit>): nat {
    if units == [] then 0 else TotalTokens(units[..|units| - 1]) + units[|units| - 1].tokenCount
  }

  function InputTokens(inputs: seq<string>): nat {
    if inputs == [] then 0 else InputTokens(inputs[..|inputs| - 1]) + |Words(inputs[|inputs| - 1])|
  }

  function CompressionRatio(input: nat, output: nat): real {
    if input == 0 then 0.0 else output as real / input as real
  }

  datatype PipelineResult = PipelineResult(units: seq<Unit>, inputTokens: nat, outputTokens: nat, ratio: real)

  /** compose, prune, rewrite; the circulator passes its input on. */
  function RunPipeline(inputs: seq<string>, rules: Rules): PipelineResult {
    var output := RewriteAll(Prune(Compose(inputs, rules), rules));
    PipelineResult(output, InputTokens(inputs), TotalTokens(output), CompressionRatio(InputTokens(inputs), TotalTokens(output)))
  }

  // ---- Main results ----

  /** Rewriting leaves the original words less some filler words, cut after the 60th
      of them, up to the ellipsis it appends when it cuts. */
  lemma RewriteOnlyDropsWords(text: string) returns (thinned: seq<string>, kept: seq<string>)
    ensures Thinned(thinned, Words(text), FillerWords(FILLER))
    ensures thinned == Words(StripFillers(text, FILLER))
    ensures kept == if |thinned| <= 60 then thinned else thinned[..60]
    ensures
      Words(RewriteText(text)) == if |thinned| <= 60 then kept else kept[..59] + [kept[59] + "\U{2026}"]
    ensures |thinned| <= 60 ==> RewriteText(text) == StripFillers(text, FILLER)
    ensures |Words(RewriteText(text))| == |kept| <= |Words(text)|
  {
    var stripped := StripFillers(text, FILLER);
    thinned := Words(stripped);
    kept := if |thinned| <= MAX_TOKENS then thinned else thinned[..MAX_TOKENS];
    StripDropsFillers(text, FILLER, FillerWords(FILLER));
    if |thinned| > MAX_TOKENS {
      WordsAreWords("", stripped);
      JoinedWords(kept);
    }
    ThinnedLength(thinned, Words(text), FillerWords(FILLER));
  }

  /** Whatever the threshold and the penalty, as long as both are positive, the pruner
      drops exactly the units that need not be kept and score nothing or less. */
  lemma PrunedIffWorthless(u: Unit, rules: Rules, threshold: real, penalty: real)
    requires threshold > 0.0 && penalty > 0.0
    ensures !Keeps(u, rules, threshold, penalty) <==>
      !rules.mustKeep(u.content) && EffectiveScore(u.score, rules.critical(u.content)) <= 0.0
  {
  }

  /** In terms of the raw score: a unit that is critical by syntax is judged 0.3 better. */
  lemma PrunedByRawScore(u: Unit, rules: Rules)
    ensures !Keeps(u, rules, THRESHOLD, LAMBDA) <==>
      !rules.mustKeep(u.content) && (if rules.critical(u.content) then u.score + 0.3 <= 0.0 else u.score <= 0.0)
  {
    PrunedIffWorthless(u, rules, THRESHOLD, LAMBDA);
  }

  /** The boost is 0.3, up to a score of 1. */
  lemma BoostExact(score: real)
    ensures EffectiveScore(score, false) == score
    ensures EffectiveScore(score, true) == if score <= 0.7 then score + 0.3 else 1.0
  {
  }

  /** At the pruner's settings the loss is the distance above the threshold of 0.35, and
      three times the distance below it. */
  lemma LossExact(score: real)
    ensures AsymmetricLoss(score, THRESHOLD, LAMBDA) == if score >= 0.35 then score - 0.35 else 3.0 * (0.35 - score)
  {
  }

  /** Kept units stay in order. */
  lemma {:induction false} PruneInOrder(a: seq<Unit>, b: seq<Unit>, rules: Rules)
    ensures Prune(a + b, rules) == Prune(a, rules) + Prune(b, rules)
  {
    if a == [] {
      assert a + b == b;
    } else {
      PruneInOrder(a[1..], b, rules);
      assert (a + b)[1..] == a[1..] + b && (a + b)[0] == a[0];
      Rejoin(if Keeps(a[0], rules, THRESHOLD, LAMBDA) then [a[0]] else [], Prune(a[1..], rules), Prune(b, rules));
    }
  }

  lemma Rejoin<A>(a: seq<A>, b: seq<A>, c: seq<A>)
    ensures a + (b + c) == a + b + c
  {
  }

  lemma PruneOne(u: Unit, rules: Rules)
    ensures Prune([u], rules) == if Keeps(u, rules, THRESHOLD, LAMBDA) then [u] else []
  {
    assert [u][1..] == [];
  }

  lemma {:induction false} PruneKeepsAll(units: seq<Unit>, rules: Rules)
    requires forall i :: 0 <= i < |units| ==> units[i].score == BASE_SCORE
    ensures Prune(units, rules) == units
  {
    if units != [] {
      PrunedIffWorthless(units[0], rules, THRESHOLD, LAMBDA);
      PruneKeepsAll(units[1..], rules);
    }
  }

  lemma {:induction false} TokensShrink(inputs: seq<string>, units: seq<Unit>)
    requires |units| == |inputs|
    requires forall i :: 0 <= i < |units| ==> units[i].tokenCount <= |Words(inputs[i])|
    ensures TotalTokens(units) <= InputTokens(inputs)
  {
    if inputs != [] {
      TokensShrink(inputs[..|inputs| - 1], units[..|units| - 1]);
    }
  }

  /** One unit per input, in order, under its own id, holding that input's rewritten
      text and its word count; tokens never grow. */
  lemma PipelineKeepsEveryUnit(inputs: seq<string>, rules: Rules)
    ensures
      var r := RunPipeline(inputs, rules);
      && |r.units| == |inputs|
      && (forall i: nat :: i < |inputs| ==>
           && r.units[i].id == "unit-" + Decimal.Digits(i)
           && r.units[i].content == RewriteText(inputs[i])
           && r.units[i].tokenCount == |Words(RewriteText(inputs[i]))| <= |Words(inputs[i])|
           && r.units[i].critical == rules.critical(inputs[i]) && r.units[i].score == 0.5)
      && r.outputTokens <= r.inputTokens
      && 0.0 <= r.ratio <= 1.0
  {
    var r := RunPipeline(inputs, rules);
    PruneKeepsAll(Compose(inputs, rules), rules);
    forall i: nat | i < |inputs|
      ensures r.units[i] == RewriteUnit(ComposeUnit(i, inputs[i], rules))
      ensures r.units[i].tokenCount <= |Words(inputs[i])|
    {
      var thinned, kept := RewriteOnlyDropsWords(inputs[i]);
    }
    TokensShrink(inputs, r.units);
    RatioBounds(r.inputTokens, r.outputTokens);
  }

  /** The totals are sums over the inputs and the units, and the ratio is theirs. */
  lemma PipelineTotals(inputs: seq<string>, rules: Rules)
    ensures RunPipeline(inputs, rules).inputTokens == Sum(WordCounts(inputs))
    ensures RunPipeline(inputs, rules).outputTokens == Sum(TokenCounts(RunPipeline(inputs, rules).units))
    ensures RunPipeline(inputs, rules).ratio ==
      CompressionRatio(RunPipeline(inputs, rules).inputTokens, RunPipeline(inputs, rules).outputTokens)
  {
    InputSum(inputs);
    OutputSum(RunPipeline(inputs, rules).units);
  }

  /** The ratio is output over input, and 0 without input. */
  lemma RatioIs(input: nat, output: nat)
    ensures input > 0 ==> CompressionRatio(input, output) * input as real == output as real
    ensures input == 0 ==> CompressionRatio(input, output) == 0.0
  {
  }

  function WordCounts(inputs: seq<string>): seq<nat> {
    seq(|inputs|, i requires 0 <= i < |inputs| => |Words(inputs[i])|)
  }

  function TokenCounts(units: seq<Unit>): seq<nat> {
    seq(|units|, i requires 0 <= i < |units| => units[i].tokenCount)
  }

  function Sum(xs: seq<nat>): nat {
    if xs == [] then 0 else xs[0] + Sum(xs[1..])
  }

  lemma {:induction false} SumLast(xs: seq<nat>)
    requires xs != []
    ensures Sum(xs) == Sum(xs[..|xs| - 1]) + xs[|xs| - 1]
  {
    if |xs| > 1 {
      SumLast(xs[1..]);
      assert xs[1..][..|xs| - 2] == xs[..|xs| - 1][1..];
    }
  }

  lemma {:induction false} InputSum(inputs: seq<string>)
    ensures InputTokens(inputs) == Sum(WordCounts(inputs))
  {
    if inputs != [] {
      var xs := WordCounts(inputs);
      InputSum(inputs[..|inputs| - 1]);
      SumLast(xs);
      assert xs[..|inputs| - 1] == WordCounts(inputs[..|inputs| - 1]);
    }
  }

  lemma {:induction false} OutputSum(units: seq<Unit>)
    ensures TotalTokens(units) == Sum(TokenCounts(units))
  {
    if units != [] {
      var xs := TokenCounts(units);
      OutputSum(units[..|units| - 1]);
      SumLast(xs);
      assert xs[..|units| - 1] == TokenCounts(units[..|units| - 1]);
    }
  }

  lemma RatioBounds(input: nat, output: nat)
    requires output <= input
    ensures 0.0 <= CompressionRatio(input, output) <= 1.0
  {
    if input > 0 {
      assert output as real <= input as real;
    }
  }

  /** Ids of different units differ. */
  lemma UnitIdsDistinct(i: nat, j: nat)
    requires "unit-" + Decimal.Digits(i) == "unit-" + Decimal.Digits(j)
    ensures i == j
  {
    assert Decimal.Digits(i) == ("unit-" + Decimal.Digits(i))[5..] == ("unit-" + Decimal.Digits(j))[5..];
    Decimal.DigitsInjective(i, j);
  }
}
