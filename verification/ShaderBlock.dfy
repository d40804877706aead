/** The managed `custom-shader` block in the user's terminal config: inserting and
    updating it, and exactly when doing so is idempotent and keeps the user's text. */
module ShaderBlock {
  import opened Wrappers

  // ---- Searching text ----

  predicate OccursAt(s: string, pat: string, i: int) {
    0 <= i && i + |pat| <= |s| && s[i..i + |pat|] == pat
  }

  /** First occurrence at or after `from`, as `str::find` looks for it. */
  function FindFrom(s: string, pat: string, from: nat): (r: Option<nat>)
    requires from <= |s|
    ensures r.Some? ==> from <= r.value && OccursAt(s, pat, r.value)
    ensures forall i :: from <= i && OccursAt(s, pat, i) ==> r.Some? && r.value <= i
    decreases |s| - from
  {
    if OccursAt(s, pat, from) then Some(from)
    else if from == |s| then None
    else FindFrom(s, pat, from + 1)
  }

  function Find(s: string, pat: string): Option<nat> {
    FindFrom(s, pat, 0)
  }

  /** `i` is the first occurrence. */
  ghost predicate FirstAt(s: string, pat: string, i: nat) {
    OccursAt(s, pat, i) && forall j :: 0 <= j < i ==> !OccursAt(s, pat, j)
  }

  ghost predicate Absent(s: string, pat: string) {
    forall i :: !OccursAt(s, pat, i)
  }

  lemma FindFirst(s: string, pat: string, i: nat)
    requires FirstAt(s, pat, i)
    ensures Find(s, pat) == Some(i)
  {
  }

  // ---- Markers and blocks ----

  datatype Markers = Markers(begin: string, end: string)

  /** A line of its own that starts with the only `#` it has. */
  ghost predicate MarkerLine(m: string) {
    && |m| > 0 && m[0] == '#'
    && (forall i :: 0 < i < |m| ==> m[i] != '#')
    && (forall i :: 0 <= i < |m| ==> m[i] != '\n')
  }

  ghost predicate GoodMarkers(m: Markers) {
    && MarkerLine(m.begin) && MarkerLine(m.end)
    && exists d :: 0 <= d < |m.begin| && d < |m.end| && m.begin[d] != m.end[d]
  }

  const BEGIN_LINE := "# >>> entheai raindrop shader " + "\U{2014} managed by `entheai doctor` >>>"
  const END_LINE := "# <<< entheai raindrop shader <<<"

  function ConfigLine(path: string): string {
    "custom-shader = " + path
  }

  function Block(m: Markers, line: string): string {
    m.begin + "\n" + line + "\n" + m.end
  }

  // ---- Merging ----

  datatype Action = AlreadyCurrent | Updated | Added

  /** What separates a new block from the text before it. */
  function Separator(existing: string): string {
    if existing == "" then "" else if existing[|existing| - 1] != '\n' then "\n\n" else "\n"
  }

  /** The merged text and what was done; None where the program's slice panics. */
  function Merge(m: Markers, existing: string, path: string): Option<(string, Action)> {
    var block := Block(m, ConfigLine(path));
    var b, e := Find(existing, m.begin), Find(existing, m.end);
    if b.Some? && e.Some? then
      var end := e.value + |m.end|;
      if b.value > end then None
      else if existing[b.value..end] == block then Some((existing, AlreadyCurrent))
      else Some((existing[..b.value] + block + existing[end..], Updated))
    else Some((existing + Separator(existing) + block + "\n", Added))
  }

  method MergeShaderBlock(m: Markers, existing: string, path: string) returns (r: Option<(string, Action)>)
    ensures r == Merge(m, existing, path)
  {
    var block := Block(m, ConfigLine(path));
    var b, e := Find(existing, m.begin), Find(existing, m.end);
    if b.Some? && e.Some? {
      var end := e.value + |m.end|;
      if b.value > end {
        return None;
      }
      if existing[b.value..end] == block {
        return Some((existing, AlreadyCurrent));
      }
      var text := existing[..b.value];
      text := text + block;
      text := text + existing[end..];
      return Some((text, Updated));
    }
    var out := existing;
    if out != "" {
      if out[|out| - 1] != '\n' {
        out := out + "\n";
      }
      out := out + "\n";
    }
    assert out == existing + Separator(existing);
    out := out + block;
    out := out + "\n";
    return Some((out, Added));
  }

  /** Text of one line that holds neither marker. */
  ghost predicate CleanLine(m: Markers, line: string) {
    && (forall i :: 0 <= i < |line| ==> line[i] != '\n')
    && MarkerFree(m, line)
  }

  ghost predicate MarkerFree(m: Markers, text: string) {
    Absent(text, m.begin) && Absent(text, m.end)
  }

  /** What a caller can look up before merging: no marker at all, or both with the
      first begin before the first end. */
  predicate MarkersPaired(m: Markers, existing: string) {
    match (Find(existing, m.begin), Find(existing, m.end))
    case (None, None) => true
    case (Some(b), Some(e)) => b < e
    case _ => false
  }

  // ---- Where markers can occur ----

  lemma Mismatch(s: string, pat: string, i: nat, k: nat)
    requires k < |pat| && i + k < |s| && s[i + k] != pat[k]
    ensures !OccursAt(s, pat, i)
  {
    if i + |pat| <= |s| {
      assert s[i..i + |pat|][k] == s[i + k];
    }
  }

  /** A marker does not run across a `#` or a newline. */
  lemma NoStraddle(pre: string, rest: string, mk: string, i: nat)
    requires MarkerLine(mk) && (rest == "" || rest[0] == '#' || rest[0] == '\n')
    requires i < |pre|
    ensures OccursAt(pre + rest, mk, i) <==> OccursAt(pre, mk, i)
  {
    if i + |mk| <= |pre| {
      assert (pre + rest)[i..i + |mk|] == pre[i..i + |mk|];
    } else if rest != "" {
      Mismatch(pre + rest, mk, i, |pre| - i);
    }
  }

  lemma OccursAfter(pre: string, suf: string, mk: string, i: nat)
    ensures OccursAt(pre + suf, mk, |pre| + i) <==> OccursAt(suf, mk, i)
  {
    if i + |mk| <= |suf| {
      assert (pre + suf)[|pre| + i..|pre| + i + |mk|] == suf[i..i + |mk|];
    }
  }

  /** A clean path gives a clean line: no marker starts in the `#`-free key. */
  lemma CleanPathCleanLine(m: Markers, path: string)
    requires GoodMarkers(m) && CleanLine(m, path)
    ensures CleanLine(m, ConfigLine(path))
  {
    var key := "custom-shader = ";
    assert forall i :: 0 <= i < |key| ==> key[i] != '#' && key[i] != '\n';
    KeyAddsNoMarker(key, path, m.begin);
    KeyAddsNoMarker(key, path, m.end);
  }

  lemma KeyAddsNoMarker(key: string, path: string, mk: string)
    requires MarkerLine(mk) && Absent(path, mk) && forall i :: 0 <= i < |key| ==> key[i] != '#'
    ensures Absent(key + path, mk)
  {
    forall i: nat | i + |mk| <= |key + path|
      ensures !OccursAt(key + path, mk, i)
    {
      if i < |key| {
        Mismatch(key + path, mk, i, 0);
      } else {
        OccursAfter(key, path, mk, i - |key|);
      }
    }
  }

  /** Where the chars of a block lie. */
  lemma BlockChars(m: Markers, line: string, suf: string, i: nat)
    requires i < |Block(m, line)|
    ensures
      var c, b := (Block(m, line) + suf)[i], |m.begin|;
      && (i < b ==> c == m.begin[i])
      && (i == b || i == b + 1 + |line| ==> c == '\n')
      && (b + 1 <= i < b + 1 + |line| ==> c == line[i - b - 1])
      && (b + 1 + |line| < i ==> c == m.end[i - b - 2 - |line|])
  {
  }

  /** Inside a block the markers occur at its two ends and nowhere else. */
  lemma BlockOccurrences(m: Markers, line: string, suf: string, mk: string, i: nat)
    requires GoodMarkers(m) && CleanLine(m, line) && (mk == m.begin || mk == m.end)
    requires i < |Block(m, line)|
    ensures
      OccursAt(Block(m, line) + suf, mk, i) <==>
        (mk == m.begin && i == 0) || (mk == m.end && i == |Block(m, line)| - |m.end|)
  {
    var last := |Block(m, line)| - |m.end|;
    if i == 0 || i == last {
      EndOccurrences(m, line, suf, mk);
    } else if |m.begin| + 1 <= i < last - 1 {
      LineOccurrences(m, line, suf, mk, i - |m.begin| - 1);
    } else {
      BlockChars(m, line, suf, i);
      Mismatch(Block(m, line) + suf, mk, i, 0);
    }
  }

  lemma EndOccurrences(m: Markers, line: string, suf: string, mk: string)
    requires GoodMarkers(m) && (mk == m.begin || mk == m.end)
    ensures OccursAt(Block(m, line) + suf, mk, 0) <==> mk == m.begin
    ensures OccursAt(Block(m, line) + suf, mk, |Block(m, line)| - |m.end|) <==> mk == m.end
  {
    var s, last := Block(m, line) + suf, |Block(m, line)| - |m.end|;
    var d :| 0 <= d < |m.begin| && d < |m.end| && m.begin[d] != m.end[d];
    BlockChars(m, line, suf, d);
    BlockChars(m, line, suf, last + d);
    if mk == m.begin {
      assert s[..|mk|] == mk;
      Mismatch(s, mk, last, d);
    } else {
      assert s[last..last + |mk|] == mk;
      Mismatch(s, mk, 0, d);
    }
  }

  lemma BlockSlice(m: Markers, line: string, suf: string, r: nat, n: nat)
    requires r + n <= |line|
    ensures
      var i := |m.begin| + 1 + r;
      i + n <= |Block(m, line) + suf| && (Block(m, line) + suf)[i..i + n] == line[r..r + n]
  {
    var s, i := Block(m, line) + suf, |m.begin| + 1 + r;
    var x, y := s[i..i + n], line[r..r + n];
    forall k | 0 <= k < n
      ensures x[k] == y[k]
    {
      BlockChars(m, line, suf, i + k);
    }
  }

  lemma LineOccurrences(m: Markers, line: string, suf: string, mk: string, r: nat)
    requires GoodMarkers(m) && CleanLine(m, line) && (mk == m.begin || mk == m.end) && r < |line|
    ensures !OccursAt(Block(m, line) + suf, mk, |m.begin| + 1 + r)
  {
    var s, i := Block(m, line) + suf, |m.begin| + 1 + r;
    if r + |mk| <= |line| {
      BlockSlice(m, line, suf, r, |mk|);
      assert !OccursAt(line, mk, r);
    } else {
      BlockChars(m, line, suf, |m.begin| + 1 + |line|);
      Mismatch(s, mk, i, |line| - r);
    }
  }

  // ---- The shape of a merged text ----

  /** Behind marker-free text a block is found where it stands. */
  lemma BlockIsFound(m: Markers, pre: string, line: string, suf: string)
    requires GoodMarkers(m) && MarkerFree(m, pre) && CleanLine(m, line)
    ensures Find(pre + Block(m, line) + suf, m.begin) == Some(|pre|)
    ensures Find(pre + Block(m, line) + suf, m.end) == Some(|pre| + |Block(m, line)| - |m.end|)
  {
    Reassociate(pre, Block(m, line), suf);
    MarkerFirst(m, pre, line, suf, m.begin, 0);
    MarkerFirst(m, pre, line, suf, m.end, |Block(m, line)| - |m.end|);
  }

  lemma Reassociate(a: string, b: string, c: string)
    ensures a + b + c == a + (b + c)
  {
  }

  lemma NotBefore(m: Markers, pre: string, line: string, suf: string, mk: string, j: nat)
    requires GoodMarkers(m) && MarkerFree(m, pre) && CleanLine(m, line) && (mk == m.begin || mk == m.end)
    requires j < |pre|
    ensures !OccursAt(pre + (Block(m, line) + suf), mk, j)
  {
    BlockChars(m, line, suf, 0);
    NoStraddle(pre, Block(m, line) + suf, mk, j);
  }

  lemma NotInside(m: Markers, pre: string, line: string, suf: string, mk: string, at: nat, j: nat)
    requires GoodMarkers(m) && CleanLine(m, line) && (mk == m.begin || mk == m.end) && j < |Block(m, line)|
    requires at == if mk == m.begin then 0 else |Block(m, line)| - |m.end|
    ensures OccursAt(pre + (Block(m, line) + suf), mk, |pre| + j) <==> j == at
  {
    OccursAfter(pre, Block(m, line) + suf, mk, j);
    BlockOccurrences(m, line, suf, mk, j);
    MarkersDiffer(m);
  }

  lemma MarkersDiffer(m: Markers)
    requires GoodMarkers(m)
    ensures m.begin != m.end
  {
  }

  lemma MarkerFirst(m: Markers, pre: string, line: string, suf: string, mk: string, at: nat)
    requires GoodMarkers(m) && MarkerFree(m, pre) && CleanLine(m, line) && (mk == m.begin || mk == m.end)
    requires at == if mk == m.begin then 0 else |Block(m, line)| - |m.end|
    ensures Find(pre + (Block(m, line) + suf), mk) == Some(|pre| + at)
  {
    var s := pre + (Block(m, line) + suf);
    forall j: nat | j <= |pre| + at
      ensures OccursAt(s, mk, j) <==> j == |pre| + at
    {
      if j < |pre| {
        NotBefore(m, pre, line, suf, mk, j);
      } else {
        NotInside(m, pre, line, suf, mk, at, j - |pre|);
      }
    }
    FindFirst(s, mk, |pre| + at);
  }

  lemma BlocksDiffer(m: Markers, p: string, q: string)
    ensures Block(m, p) == Block(m, q) <==> p == q
  {
    var b := |m.begin|;
    if Block(m, p) == Block(m, q) {
      assert |p| == |q|;
      assert p == Block(m, p)[b + 1..b + 1 + |p|];
      assert q == Block(m, q)[b + 1..b + 1 + |q|];
    }
  }

  /** Merging into a text with a block in place swaps the block and nothing else. */
  lemma MergeIntoBlock(m: Markers, pre: string, line: string, suf: string, q: string)
    requires GoodMarkers(m) && MarkerFree(m, pre) && CleanLine(m, line)
    ensures
      Merge(m, pre + Block(m, line) + suf, q) ==
        Some((pre + Block(m, ConfigLine(q)) + suf, if line == ConfigLine(q) then AlreadyCurrent else Updated))
  {
    BlockIsFound(m, pre, line, suf);
    BlocksDiffer(m, line, ConfigLine(q));
    var s, n := pre + Block(m, line) + suf, |pre| + |Block(m, line)|;
    assert s[|pre|..n] == Block(m, line) && s[..|pre|] == pre && s[n..] == suf;
  }

  // ---- Main results ----

  /** The managed-block law at one text: merging p then q is merging q alone, and
      merging p again finds nothing to do and changes nothing. */
  ghost predicate Law(m: Markers, existing: string, p: string, q: string) {
    var first := Merge(m, existing, p);
    && first.Some? && Merge(m, existing, q).Some?
    && Merge(m, first.value.0, q).Some?
    && Merge(m, first.value.0, q).value.0 == Merge(m, existing, q).value.0
    && Merge(m, first.value.0, p) == Some((first.value.0, AlreadyCurrent))
  }

  /** Text before the managed block, and after it, once `existing` has been merged. */
  function Before(m: Markers, existing: string): string {
    match Find(existing, m.begin)
    case Some(b) => existing[..b]
    case None => existing + Separator(existing)
  }

  function Behind(m: Markers, existing: string): string {
    match Find(existing, m.end)
    case Some(e) => existing[e + |m.end|..]
    case None => "\n"
  }

  lemma SeparatorKeepsFree(existing: string, mk: string)
    requires MarkerLine(mk) && Absent(existing, mk)
    ensures Absent(existing + Separator(existing), mk)
  {
    var sep := Separator(existing);
    forall i: nat | i + |mk| <= |existing + sep|
      ensures !OccursAt(existing + sep, mk, i)
    {
      if i < |existing| {
        NoStraddle(existing, sep, mk, i);
      } else {
        Mismatch(existing + sep, mk, i, 0);
      }
    }
  }

  lemma PrefixFree(existing: string, mk: string, b: nat)
    requires b <= |existing| && forall i :: 0 <= i < b ==> !OccursAt(existing, mk, i)
    requires MarkerLine(mk)
    ensures Absent(existing[..b], mk)
  {
    forall i: nat | i + |mk| <= b
      ensures !OccursAt(existing[..b], mk, i)
    {
      assert !OccursAt(existing, mk, i);
      assert existing[..b][i..i + |mk|] == existing[i..i + |mk|];
    }
  }

  lemma Rejoin(s: string, b: nat, e: nat)
    requires b <= e <= |s|
    ensures s == s[..b] + s[b..e] + s[e..]
  {
  }

  /** The text before the block holds no marker. */
  lemma BeforeIsFree(m: Markers, existing: string)
    requires GoodMarkers(m) && MarkersPaired(m, existing)
    ensures MarkerFree(m, Before(m, existing))
  {
    match Find(existing, m.begin)
    case None =>
      SeparatorKeepsFree(existing, m.begin);
      SeparatorKeepsFree(existing, m.end);
    case Some(b) =>
      PrefixFree(existing, m.begin, b);
      PrefixFree(existing, m.end, b);
  }

  /** With paired markers the merged text is the user's text around one block: all of
      it before the block, and what stood behind the old block behind the new one. */
  lemma MergedShape(m: Markers, existing: string, p: string)
    requires GoodMarkers(m) && MarkersPaired(m, existing)
    ensures Merge(m, existing, p).Some?
    ensures Merge(m, existing, p).value.0 == Before(m, existing) + Block(m, ConfigLine(p)) + Behind(m, existing)
  {
    if Find(existing, m.begin).Some? {
      PairedMerge(m, existing, p, Find(existing, m.begin).value, Find(existing, m.end).value);
    }
  }

  lemma PairedMerge(m: Markers, existing: string, p: string, b: nat, e: nat)
    requires Find(existing, m.begin) == Some(b) && Find(existing, m.end) == Some(e) && b < e
    ensures Merge(m, existing, p).Some?
    ensures Merge(m, existing, p).value.0 == existing[..b] + Block(m, ConfigLine(p)) + existing[e + |m.end|..]
  {
    Rejoin(existing, b, e + |m.end|);
  }

  /** The merged text, letter by letter. Without markers: all the user's text, an empty
      line unless there is none, the block with the path in it, a newline. With both in
      order: the block in place of what stood from the begin through the end. */
  lemma MergedText(m: Markers, existing: string, p: string)
    requires GoodMarkers(m) && MarkersPaired(m, existing)
    ensures Merge(m, existing, p).Some?
    ensures
      var (text, action) := Merge(m, existing, p).value;
      var block := m.begin + "\n" + ("custom-shader = " + p) + "\n" + m.end;
      match Find(existing, m.begin)
      case None =>
        var gap := if existing == "" then "" else if existing[|existing| - 1] == '\n' then "\n" else "\n\n";
        text == existing + gap + block + "\n" && action == Added
      case Some(b) =>
        var end := Find(existing, m.end).value + |m.end|;
        && text == existing[..b] + block + existing[end..]
        && action == if existing[b..end] == block then AlreadyCurrent else Updated
  {
    MergedShape(m, existing, p);
  }

  /** A new block begins on a line of its own. */
  lemma BlockStartsLine(existing: string)
    ensures existing != "" ==> (existing + Separator(existing))[|existing + Separator(existing)| - 1] == '\n'
    ensures existing == "" ==> existing + Separator(existing) == ""
  {
  }

  /** Merging q after p finds the block current exactly when the paths are the same. */
  lemma RemergeCurrentIff(m: Markers, existing: string, p: string, q: string)
    requires GoodMarkers(m) && CleanLine(m, p) && CleanLine(m, q) && MarkersPaired(m, existing)
    ensures Merge(m, existing, p).Some? && Merge(m, Merge(m, existing, p).value.0, q).Some?
    ensures Merge(m, Merge(m, existing, p).value.0, q).value.1 == if p == q then AlreadyCurrent else Updated
  {
    BeforeIsFree(m, existing);
    MergedShape(m, existing, p);
    CleanPathCleanLine(m, p);
    MergeIntoBlock(m, Before(m, existing), ConfigLine(p), Behind(m, existing), q);
    if ConfigLine(p) == ConfigLine(q) {
      assert p == ConfigLine(p)[|"custom-shader = "|..] == ConfigLine(q)[|"custom-shader = "|..] == q;
    }
  }

  /** The program's slice panics exactly where the first begin lies behind the first end. */
  lemma MergePanicsIff(m: Markers, existing: string, p: string)
    ensures Merge(m, existing, p).None? <==>
      Find(existing, m.begin).Some? && Find(existing, m.end).Some? &&
      Find(existing, m.begin).value > Find(existing, m.end).value + |m.end|
  {
  }

  lemma PairedGivesLaw(m: Markers, existing: string, p: string, q: string)
    requires GoodMarkers(m) && CleanLine(m, p) && CleanLine(m, q) && MarkersPaired(m, existing)
    ensures Law(m, existing, p, q)
  {
    BeforeIsFree(m, existing);
    MergedShape(m, existing, p);
    MergedShape(m, existing, q);
    CleanPathCleanLine(m, p);
    MergeIntoBlock(m, Before(m, existing), ConfigLine(p), Behind(m, existing), q);
    MergeIntoBlock(m, Before(m, existing), ConfigLine(p), Behind(m, existing), p);
  }

  lemma FindInPrefix(pre: string, rest: string, mk: string, at: nat)
    requires MarkerLine(mk) && (rest == "" || rest[0] == '#' || rest[0] == '\n')
    requires Find(pre, mk) == Some(at)
    ensures Find(pre + rest, mk) == Some(at)
  {
    assert at < |pre|;
    forall i: nat | i <= at
      ensures OccursAt(pre + rest, mk, i) <==> OccursAt(pre, mk, i)
    {
      NoStraddle(pre, rest, mk, i);
    }
    FindFirst(pre + rest, mk, at);
  }

  lemma EndOfAppended(m: Markers, pre: string, line: string)
    requires GoodMarkers(m) && Absent(pre, m.end) && CleanLine(m, line)
    ensures Find(pre + Block(m, line) + "\n", m.end) == Some(|pre| + |Block(m, line)| - |m.end|)
  {
    var s, at := pre + (Block(m, line) + "\n"), |Block(m, line)| - |m.end|;
    assert pre + Block(m, line) + "\n" == s;
    forall j: nat | j <= |pre| + at
      ensures OccursAt(s, m.end, j) <==> j == |pre| + at
    {
      if j < |pre| {
        BlockChars(m, line, "\n", 0);
        NoStraddle(pre, Block(m, line) + "\n", m.end, j);
      } else {
        NotInside(m, pre, line, "\n", m.end, at, j - |pre|);
      }
    }
    FindFirst(s, m.end, |pre| + at);
  }

  /** A begin without an end: the next merge swallows the text in between. */
  lemma StrayBegin(m: Markers, existing: string, p: string)
    requires GoodMarkers(m) && CleanLine(m, p)
    requires Find(existing, m.begin).Some? && Find(existing, m.end).None?
    ensures
      var first := Merge(m, existing, p);
      && first.Some?
      && Merge(m, first.value.0, p) ==
           Some((existing[..Find(existing, m.begin).value] + Block(m, ConfigLine(p)) + "\n", Updated))
  {
    var b, block := Find(existing, m.begin).value, Block(m, ConfigLine(p));
    var sep := Separator(existing);
    var out := existing + sep + block + "\n";
    CleanPathCleanLine(m, p);
    SeparatorKeepsFree(existing, m.end);
    EndOfAppended(m, existing + sep, ConfigLine(p));
    Regroup(existing, sep, block);
    FindInPrefix(existing, sep + block + "\n", m.begin, b);
    TailLength(existing, sep, block, b);
  }

  lemma Regroup(a: string, b: string, c: string)
    ensures a + b + c + "\n" == a + (b + c + "\n")
  {
  }

  lemma TailLength(existing: string, sep: string, block: string, b: nat)
    requires b < |existing|
    ensures
      var out := existing + sep + block + "\n";
      out[b..|out| - 1] != block && out[..b] == existing[..b] && out[|out| - 1..] == "\n"
  {
    var out := existing + sep + block + "\n";
    assert |out[b..|out| - 1]| > |block|;
  }

  /** An end without a begin: the next merge panics. */
  lemma StrayEnd(m: Markers, existing: string, p: string)
    requires GoodMarkers(m) && CleanLine(m, p)
    requires Find(existing, m.begin).None? && Find(existing, m.end).Some?
    ensures Merge(m, existing, p).Some? && Merge(m, Merge(m, existing, p).value.0, p).None?
  {
    var e, block := Find(existing, m.end).value, Block(m, ConfigLine(p));
    var sep := Separator(existing);
    CleanPathCleanLine(m, p);
    SeparatorKeepsFree(existing, m.begin);
    BeginOfAppended(m, existing + sep, ConfigLine(p));
    Regroup(existing, sep, block);
    FindInPrefix(existing, sep + block + "\n", m.end, e);
  }

  lemma BeginOfAppended(m: Markers, pre: string, line: string)
    requires GoodMarkers(m) && Absent(pre, m.begin) && CleanLine(m, line)
    ensures Find(pre + Block(m, line) + "\n", m.begin) == Some(|pre|)
  {
    var s := pre + (Block(m, line) + "\n");
    assert pre + Block(m, line) + "\n" == s;
    forall j: nat | j <= |pre|
      ensures OccursAt(s, m.begin, j) <==> j == |pre|
    {
      if j < |pre| {
        BlockChars(m, line, "\n", 0);
        NoStraddle(pre, Block(m, line) + "\n", m.begin, j);
      } else {
        NotInside(m, pre, line, "\n", m.begin, 0, 0);
      }
    }
    FindFirst(s, m.begin, |pre|);
  }

  /** An end before the begin: the merge panics, or (when they touch) adds a block that
      the next merge does not see. */
  lemma EndBeforeBegin(m: Markers, existing: string, p: string)
    requires GoodMarkers(m) && CleanLine(m, p)
    requires Find(existing, m.begin).Some? && Find(existing, m.end).Some?
    requires Find(existing, m.end).value <= Find(existing, m.begin).value
    ensures
      var first := Merge(m, existing, p);
      first.Some? ==> Merge(m, first.value.0, p) != Some((first.value.0, AlreadyCurrent))
  {
    var b, e := Find(existing, m.begin).value, Find(existing, m.end).value;
    if b < e + |m.end| {
      NoOverlap(m, existing, e, b);
    } else if e + |m.end| == b {
      TouchingMerge(m, existing, p, b, e);
    }
  }

  lemma TouchingMerge(m: Markers, existing: string, p: string, b: nat, e: nat)
    requires GoodMarkers(m) && Find(existing, m.begin) == Some(b) && Find(existing, m.end) == Some(e)
    requires e + |m.end| == b
    ensures
      var out := existing[..b] + Block(m, ConfigLine(p)) + existing[b..];
      && Merge(m, existing, p) == Some((out, Updated))
      && Merge(m, out, p) == Some((out[..b] + Block(m, ConfigLine(p)) + out[b..], Updated))
  {
    MergeAtTouching(m, existing, p, b, e);
    var block := Block(m, ConfigLine(p));
    var out := existing[..b] + block + existing[b..];
    assert out == existing[..b] + (block + existing[b..]);
    BlockChars(m, ConfigLine(p), existing[b..], 0);
    TouchingEnd(m, existing, b, e, block + existing[b..]);
    PrefixFree(existing, m.begin, b);
    BeginFirst(m, existing[..b], ConfigLine(p), existing[b..]);
    MergeAtTouching(m, out, p, b, e);
  }

  /** Where the first end touches the first begin, the slice between them is empty. */
  lemma MergeAtTouching(m: Markers, s: string, p: string, b: nat, e: nat)
    requires Find(s, m.begin) == Some(b) && Find(s, m.end) == Some(e) && e + |m.end| == b
    ensures Merge(m, s, p) == Some((s[..b] + Block(m, ConfigLine(p)) + s[b..], Updated))
  {
    assert s[b..b] == "";
  }

  /** No end marker covers the start of a begin marker. */
  lemma NoOverlap(m: Markers, s: string, e: nat, b: nat)
    requires GoodMarkers(m) && OccursAt(s, m.begin, b) && e <= b < e + |m.end|
    ensures !OccursAt(s, m.end, e)
  {
    var d :| 0 <= d < |m.begin| && d < |m.end| && m.begin[d] != m.end[d];
    assert s[b] == s[b..b + |m.begin|][0] == '#';
    assert s[b + d] == s[b..b + |m.begin|][d];
    Mismatch(s, m.end, e, if e == b then d else b - e);
  }

  lemma TouchingEnd(m: Markers, existing: string, b: nat, e: nat, rest: string)
    requires GoodMarkers(m) && Find(existing, m.end) == Some(e) && e + |m.end| == b <= |existing|
    requires rest != "" && rest[0] == '#'
    ensures Find(existing[..b] + rest, m.end) == Some(e)
  {
    var pre := existing[..b];
    assert pre[e..e + |m.end|] == existing[e..e + |m.end|];
    forall j: nat | j < e
      ensures !OccursAt(pre, m.end, j)
    {
      assert !OccursAt(existing, m.end, j);
      if j + |m.end| <= b {
        assert pre[j..j + |m.end|] == existing[j..j + |m.end|];
      }
    }
    FindFirst(pre, m.end, e);
    FindInPrefix(pre, rest, m.end, e);
  }

  lemma BeginFirst(m: Markers, pre: string, line: string, suf: string)
    requires GoodMarkers(m) && Absent(pre, m.begin)
    ensures Find(pre + (Block(m, line) + suf), m.begin) == Some(|pre|)
  {
    var s := pre + (Block(m, line) + suf);
    forall j: nat | j < |pre|
      ensures !OccursAt(s, m.begin, j)
    {
      BlockChars(m, line, suf, 0);
      NoStraddle(pre, Block(m, line) + suf, m.begin, j);
    }
    OccursAfter(pre, Block(m, line) + suf, m.begin, 0);
    EndOccurrences(m, line, suf, m.begin);
    FindFirst(s, m.begin, |pre|);
  }

  /** The managed-block law holds exactly at the texts whose markers are paired. */
  lemma LawIffMarkersPaired(m: Markers, existing: string, p: string, q: string)
    requires GoodMarkers(m) && CleanLine(m, p) && CleanLine(m, q)
    ensures Law(m, existing, p, q) <==> MarkersPaired(m, existing)
  {
    if MarkersPaired(m, existing) {
      PairedGivesLaw(m, existing, p, q);
    } else if Find(existing, m.begin).None? {
      StrayEnd(m, existing, p);
    } else if Find(existing, m.end).None? {
      StrayBegin(m, existing, p);
    } else {
      EndBeforeBegin(m, existing, p);
    }
  }

  /** Merging into a text without markers keeps all of it as a prefix and leaves exactly
      one begin and one end, around the new block. */
  lemma FirstMergeMakesOneBlock(m: Markers, existing: string, p: string)
    requires GoodMarkers(m) && CleanLine(m, p) && MarkerFree(m, existing)
    ensures Merge(m, existing, p).Some? && Merge(m, existing, p).value.1 == Added
    ensures
      var out, at := Merge(m, existing, p).value.0, |existing + Separator(existing)|;
      && existing <= out
      && (forall i: nat :: OccursAt(out, m.begin, i) <==> i == at)
      && (forall i: nat :: OccursAt(out, m.end, i) <==> i == at + |Block(m, ConfigLine(p))| - |m.end|)
  {
    var pre, block := existing + Separator(existing), Block(m, ConfigLine(p));
    CleanPathCleanLine(m, p);
    SeparatorKeepsFree(existing, m.begin);
    SeparatorKeepsFree(existing, m.end);
    assert pre + block + "\n" == pre + (block + "\n");
    OnlyOccurrence(m, pre, ConfigLine(p), m.begin, 0);
    OnlyOccurrence(m, pre, ConfigLine(p), m.end, |block| - |m.end|);
  }

  lemma OnlyOccurrence(m: Markers, pre: string, line: string, mk: string, at: nat)
    requires GoodMarkers(m) && MarkerFree(m, pre) && CleanLine(m, line) && (mk == m.begin || mk == m.end)
    requires at == if mk == m.begin then 0 else |Block(m, line)| - |m.end|
    ensures forall i: nat :: OccursAt(pre + (Block(m, line) + "\n"), mk, i) <==> i == |pre| + at
  {
    var s := pre + (Block(m, line) + "\n");
    forall i: nat
      ensures OccursAt(s, mk, i) <==> i == |pre| + at
    {
      if i < |pre| {
        NotBefore(m, pre, line, "\n", mk, i);
      } else if i < |s| - 1 {
        NotInside(m, pre, line, "\n", mk, at, i - |pre|);
      } else if i == |s| - 1 {
        Mismatch(s, mk, i, 0);
      }
    }
  }

  lemma BeginIsMarkerLine()
    ensures MarkerLine(BEGIN_LINE) && BEGIN_LINE[2] == '>'
  {
  }

  lemma EndIsMarkerLine()
    ensures MarkerLine(END_LINE) && END_LINE[2] == '<'
  {
  }

  /** The markers the program uses are good ones. */
  lemma ManagedMarkersAreGood(m: Markers)
    requires m.begin == BEGIN_LINE && m.end == END_LINE
    ensures GoodMarkers(m)
  {
    BeginIsMarkerLine();
    EndIsMarkerLine();
    assert m.begin[2] != m.end[2];
  }
}
