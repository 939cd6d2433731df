/**
 Path expansion (src/path/mod.rs): a leading tilde becomes the home directory, then the
 `${name}` references of the path are replaced in place, one after the other, each at its
 first occurrence in the string as it stands at that moment.  The reference meaning is one
 simultaneous pass over the original text; the theorem says exactly when the two agree.
 */
module PathExpansion {
  import opened Basics

  /** The characters the regular expression class `\w` accepts; `$`, `{`, `}` are not among them. */
  type WordClass = w: set<char> | '$' !in w && '{' !in w && '}' !in w witness {}

  datatype Environment = Environment(home: Option<string>, vars: map<string, string>, word: WordClass)

  datatype PathError = NoHome | Unset

  // ----- references ---------------------------------------------------------------------

  /** `t` is one `${name}` reference. */
  predicate IsRef(t: string, w: WordClass) {
    && 4 <= |t| && t[0] == '$' && t[1] == '{' && t[|t| - 1] == '}'
    && forall i :: 2 <= i < |t| - 1 ==> t[i] in w
  }

  function Name(t: string): string {
    if |t| < 4 then "" else t[2..|t| - 1]
  }

  /** Length of the longest prefix of word characters. */
  function WordRun(s: string, w: WordClass): (n: nat)
    ensures n <= |s|
    ensures forall i :: 0 <= i < n ==> s[i] in w
    ensures n < |s| ==> s[n] !in w
  {
    if s == [] || s[0] !in w then 0 else 1 + WordRun(s[1..], w)
  }

  /** Length of the reference that starts `s`, or 0 when none does. */
  function RefLen(s: string, w: WordClass): (n: nat)
    ensures n <= |s|
    ensures n > 0 ==> IsRef(s[..n], w)
  {
    if |s| < 4 || s[0] != '$' || s[1] != '{' then 0
    else
      var run := WordRun(s[2..], w);
      if run > 0 && 2 + run < |s| && s[2 + run] == '}' then
        assert forall i {:trigger s[..run + 3][i]} :: 2 <= i < run + 2 ==> s[..run + 3][i] == s[2..][i - 2];
        run + 3
      else 0
  }

  lemma RefLenComplete(s: string, j: nat, w: WordClass)
    requires j <= |s| && IsRef(s[..j], w)
    ensures RefLen(s, w) == j
  {
    var t := s[..j];
    var run := WordRun(s[2..], w);
    assert t[j - 1] == s[j - 1];
    assert forall i {:trigger s[2..][i]} :: 0 <= i < j - 3 ==> s[2..][i] == t[2 + i];
    assert run < |s[2..]| ==> s[2..][run] == s[2 + run];
    assert s[2..][j - 3] == '}';
    assert run <= j - 3;
    assert run == j - 3;
  }

  datatype Piece = Lit(c: char) | Ref(text: string)

  /** The text cut into references, left to right as the match iterator yields them, and the rest. */
  function Parse(s: string, w: WordClass): seq<Piece>
    decreases |s|
  {
    if s == [] then []
    else
      var n := RefLen(s, w);
      if n > 0 then [Ref(s[..n])] + Parse(s[n..], w) else [Lit(s[0])] + Parse(s[1..], w)
  }

  /** The number of positions at which a reference starts. */
  function Count(s: string, w: WordClass): nat {
    if s == [] then 0 else (if RefLen(s, w) > 0 then 1 else 0) + Count(s[1..], w)
  }

  // ----- the reference meaning ------------------------------------------------------------

  /** Every referenced variable has a value. */
  predicate AllSet(pieces: seq<Piece>, env: Environment) {
    forall i :: 0 <= i < |pieces| && pieces[i].Ref? ==> Name(pieces[i].text) in env.vars
  }

  function Value(t: string, env: Environment): string {
    if Name(t) in env.vars then env.vars[Name(t)] else t
  }

  /** All references at once; an unset reference stays as it is. */
  function Substitute(pieces: seq<Piece>, env: Environment): string {
    if pieces == [] then ""
    else (if pieces[0].Ref? then Value(pieces[0].text, env) else [pieces[0].c]) + Substitute(pieces[1..], env)
  }

  function Tilde(path: string, env: Environment): Option<string> {
    if path != [] && path[0] == '~' then
      match env.home
      case Some(home) => Some(home + path[1..])
      case None => None
    else Some(path)
  }

  /** What expansion comes to, for every path and environment. */
  function Expansion(path: string, env: Environment): Result<string, PathError> {
    match Tilde(path, env)
    case None => Err(NoHome)
    case Some(p) =>
      var pieces := Parse(p, env.word);
      var whole := Substitute(pieces, env);
      if AllSet(pieces, env) && Count(whole, env.word) == 0 then Ok(whole) else Err(Unset)
  }

  // ----- counting references --------------------------------------------------------------

  lemma RefLenOfPrefix(t: string, post: string, w: WordClass)
    requires IsRef(t, w)
    ensures RefLen(t + post, w) == |t|
  {
    assert (t + post)[..|t|] == t;
    RefLenComplete(t + post, |t|, w);
  }

  /** A reference that starts in `x` and runs past its end would swallow a `$`. */
  lemma RefLenCut(x: string, y: string, w: WordClass)
    requires x != []
    ensures RefLen(x, w) > 0 ==> RefLen(x + y, w) == RefLen(x, w)
    ensures (y == [] || y[0] == '$') ==> RefLen(x + y, w) == RefLen(x, w)
  {
    var n := RefLen(x, w);
    if n > 0 {
      assert x + y == x[..n] + (x[n..] + y);
      RefLenOfPrefix(x[..n], x[n..] + y, w);
    } else if y == [] {
      assert x + y == x;
    } else if y[0] == '$' {
      var m := RefLen(x + y, w);
      if m > 0 {
        var both := x + y;
        var t := both[..m];
        assert both[|x|] == '$' && forall i {:trigger both[i]} :: 0 <= i < m ==> t[i] == both[i];
        if m <= |x| {
          assert t == x[..m];
          RefLenComplete(x, m, w);
        } else {
          assert false;
        }
      }
    }
  }

  lemma {:induction false} CountSplit(x: string, y: string, w: WordClass)
    ensures Count(x + y, w) >= Count(x, w) + Count(y, w)
    ensures (y == [] || y[0] == '$') ==> Count(x + y, w) == Count(x, w) + Count(y, w)
  {
    if x == [] {
      assert x + y == y;
    } else {
      assert (x + y)[1..] == x[1..] + y;
      CountSplit(x[1..], y, w);
      RefLenCut(x, y, w);
    }
  }

  lemma {:induction false} CountSkip(t: string, post: string, w: WordClass)
    requires '$' !in t
    ensures Count(t + post, w) == Count(post, w)
  {
    if t == [] {
      assert t + post == post;
    } else {
      assert (t + post)[1..] == t[1..] + post;
      CountSkip(t[1..], post, w);
    }
  }

  lemma CountRef(t: string, post: string, w: WordClass)
    requires IsRef(t, w)
    ensures Count(t + post, w) == 1 + Count(post, w)
  {
    RefLenOfPrefix(t, post, w);
    assert (t + post)[1..] == t[1..] + post;
    assert '$' !in t[1..] by {
      forall i | 0 <= i < |t[1..]| ensures t[1..][i] != '$' {}
    }
    CountSkip(t[1..], post, w);
  }

  /** Replacing one reference by any text removes at most that reference. */
  lemma CountReplace(pre: string, t: string, post: string, v: string, w: WordClass)
    requires IsRef(t, w)
    ensures Count(pre + v + post, w) + 1 >= Count(pre + t + post, w)
  {
    CountSplit(pre + v, post, w);
    CountSplit(pre, v, w);
    assert pre + t + post == pre + (t + post);
    CountSplit(pre, t + post, w);
    CountRef(t, post, w);
  }

  /** The text the pieces were cut from. */
  function Flatten(pieces: seq<Piece>): string {
    if pieces == [] then "" else (if pieces[0].Ref? then pieces[0].text else [pieces[0].c]) + Flatten(pieces[1..])
  }

  predicate RealRefs(pieces: seq<Piece>, w: WordClass) {
    forall i :: 0 <= i < |pieces| && pieces[i].Ref? ==> IsRef(pieces[i].text, w)
  }

  function RefCount(pieces: seq<Piece>): nat {
    if pieces == [] then 0 else (if pieces[0].Ref? then 1 else 0) + RefCount(pieces[1..])
  }

  /** Cutting loses no text, names only references, and misses none. */
  lemma {:induction false} ParseComplete(s: string, w: WordClass)
    ensures Flatten(Parse(s, w)) == s && RealRefs(Parse(s, w), w)
    ensures RefCount(Parse(s, w)) == Count(s, w)
    decreases |s|
  {
    if s != [] {
      var n := RefLen(s, w);
      if n > 0 {
        ParseComplete(s[n..], w);
        assert s == s[..n] + s[n..];
        CountRef(s[..n], s[n..], w);
      } else {
        ParseComplete(s[1..], w);
      }
    }
  }

  lemma {:induction false} CountFlatten(pieces: seq<Piece>, w: WordClass)
    requires RealRefs(pieces, w)
    ensures Count(Flatten(pieces), w) >= RefCount(pieces)
  {
    if pieces != [] {
      CountFlatten(pieces[1..], w);
      var tail := Flatten(pieces[1..]);
      if pieces[0].Ref? {
        CountRef(pieces[0].text, tail, w);
      } else {
        CountSplit([pieces[0].c], tail, w);
      }
    }
  }

  // ----- the loop ---------------------------------------------------------------------------

  /** A captured reference and its value. */
  type Capture = (string, string)

  /** The captures collected before any replacement: set references only. */
  function Captures(pieces: seq<Piece>, env: Environment): seq<Capture> {
    if pieces == [] then []
    else if pieces[0].Ref? && Name(pieces[0].text) in env.vars then
      [(pieces[0].text, env.vars[Name(pieces[0].text)])] + Captures(pieces[1..], env)
    else Captures(pieces[1..], env)
  }

  lemma {:induction false} CapturesOf(pieces: seq<Piece>, env: Environment)
    requires RealRefs(pieces, env.word)
    ensures forall c :: c in Captures(pieces, env) ==> IsRef(c.0, env.word)
    ensures AllSet(pieces, env) ==> |Captures(pieces, env)| == RefCount(pieces)
    ensures !AllSet(pieces, env) ==> |Captures(pieces, env)| < RefCount(pieces)
    ensures |Captures(pieces, env)| <= RefCount(pieces)
  {
    if pieces != [] {
      CapturesOf(pieces[1..], env);
    }
  }

  method CollectCaptures(s: string, env: Environment) returns (caps: seq<Capture>)
    ensures caps == Captures(Parse(s, env.word), env)
  {
    caps := [];
    var pieces := Parse(s, env.word);
    ghost var all := Captures(pieces, env);
    while pieces != []
      invariant caps + Captures(pieces, env) == all
      decreases |pieces|
    {
      if pieces[0].Ref? && Name(pieces[0].text) in env.vars {
        caps := caps + [(pieces[0].text, env.vars[Name(pieces[0].text)])];
      }
      pieces := pieces[1..];
    }
  }

  predicate OccursAt(text: string, pattern: string, i: nat) {
    i + |pattern| <= |text| && text[i..i + |pattern|] == pattern
  }

  /** `str::find`: the first position at which `pattern` occurs. */
  method Find(text: string, pattern: string) returns (r: Option<nat>)
    ensures r == None ==> forall i: nat :: !OccursAt(text, pattern, i)
    ensures r.Some? ==> OccursAt(text, pattern, r.value)
    ensures r.Some? ==> forall i :: 0 <= i < r.value ==> !OccursAt(text, pattern, i)
  {
    var i := 0;
    while i + |pattern| <= |text|
      invariant forall j :: 0 <= j < i ==> !OccursAt(text, pattern, j)
    {
      if text[i..i + |pattern|] == pattern {
        return Some(i);
      }
      i := i + 1;
    }
    return None;
  }

  /** `String::replace_range` at the place `find` returned; nothing when it found nothing. */
  function Replace(cur: string, pos: Option<nat>, len: nat, value: string): string
    requires pos.Some? ==> pos.value + len <= |cur|
  {
    if pos == None then cur else cur[..pos.value] + value + cur[pos.value + len..]
  }

  ghost predicate FirstAt(cur: string, t: string, pos: Option<nat>) {
    && (pos == None ==> forall i: nat :: !OccursAt(cur, t, i))
    && (pos.Some? ==> OccursAt(cur, t, pos.value))
    && (pos.Some? ==> forall i :: 0 <= i < pos.value ==> !OccursAt(cur, t, i))
  }

  /** The state from which the remaining replacements still hit their own references. */
  ghost predicate OnTrack(cur: string, done: string, rest: seq<Piece>, caps: seq<Capture>, whole: string, env: Environment) {
    && cur == done + Flatten(rest)
    && RealRefs(rest, env.word) && AllSet(rest, env)
    && caps == Captures(rest, env)
    && whole == done + Substitute(rest, env)
  }

  /** The state from which some reference is certain to be left at the end. */
  ghost predicate Doomed(cur: string, caps: seq<Capture>, w: WordClass) {
    Count(cur, w) > |caps|
  }

  /** A reference cannot start before another one and end inside it. */
  lemma NoOverlap(done: string, t: string, tail: string, at: nat, w: WordClass)
    requires IsRef(t, w) && at < |done| && OccursAt(done + t + tail, t, at)
    ensures OccursAt(done, t, at)
  {
    var s := done + t + tail;
    assert t == s[at..at + |t|];
    assert s[|done|] == '$';
    if at + |t| > |done| {
      assert false;
    }
    assert done[at..at + |t|] == s[at..at + |t|];
  }

  lemma OccurrenceCounts(s: string, t: string, at: nat, w: WordClass)
    requires IsRef(t, w) && OccursAt(s, t, at)
    ensures Count(s, w) > 0
  {
    var after := s[at + |t|..];
    assert s == s[..at] + (t + after);
    CountSplit(s[..at], t + after, w);
    CountRef(t, after, w);
  }

  /** With no reference in the text before it, the first occurrence is the intended one. */
  lemma FirstOccurrence(done: string, t: string, tail: string, pos: Option<nat>, w: WordClass)
    requires IsRef(t, w) && Count(done, w) == 0
    requires FirstAt(done + t + tail, t, pos)
    ensures pos == Some(|done|)
  {
    var s := done + t + tail;
    assert s[|done|..|done| + |t|] == t;
    assert OccursAt(s, t, |done|);
    var at := pos.value;
    if at < |done| {
      NoOverlap(done, t, tail, at, w);
      OccurrenceCounts(done, t, at, w);
    }
  }

  /** One replacement keeps a reference that is bound to be left. */
  lemma DoomedStep(cur: string, pos: Option<nat>, cap: Capture, caps: seq<Capture>, w: WordClass)
    requires Doomed(cur, [cap] + caps, w)
    requires IsRef(cap.0, w) && FirstAt(cur, cap.0, pos)
    ensures Doomed(Replace(cur, pos, |cap.0|, cap.1), caps, w)
  {
    if pos.Some? {
      var (pre, post) := (cur[..pos.value], cur[pos.value + |cap.0|..]);
      assert cur == pre + cap.0 + post;
      CountReplace(pre, cap.0, post, cap.1, w);
    }
  }

  /** Text already produced that holds a reference seals the outcome. */
  lemma Sealed(cur: string, done: string, rest: seq<Piece>, caps: seq<Capture>, whole: string, env: Environment)
    requires OnTrack(cur, done, rest, caps, whole, env)
    requires Count(done, env.word) > 0
    ensures Doomed(cur, caps, env.word) && Count(whole, env.word) > 0
  {
    CountSplit(done, Flatten(rest), env.word);
    CountFlatten(rest, env.word);
    CapturesOf(rest, env);
    CountSplit(done, Substitute(rest, env), env.word);
  }

  /** The characters before the next reference move to the text already produced. */
  lemma {:induction false} SkipLiterals(cur: string, done: string, rest: seq<Piece>, caps: seq<Capture>, whole: string, env: Environment)
    returns (done': string, rest': seq<Piece>)
    requires OnTrack(cur, done, rest, caps, whole, env) && caps != []
    ensures OnTrack(cur, done', rest', caps, whole, env)
    ensures rest' != [] && rest'[0].Ref?
    decreases |rest|
  {
    if rest[0].Ref? {
      done', rest' := done, rest;
    } else {
      assert done + ([rest[0].c] + Flatten(rest[1..])) == done + [rest[0].c] + Flatten(rest[1..]);
      assert done + ([rest[0].c] + Substitute(rest[1..], env)) == done + [rest[0].c] + Substitute(rest[1..], env);
      done', rest' := SkipLiterals(cur, done + [rest[0].c], rest[1..], caps, whole, env);
    }
  }

  /** What being on track means when a reference comes next. */
  lemma NextPiece(cur: string, done: string, rest: seq<Piece>, cap: Capture, caps: seq<Capture>, whole: string, env: Environment)
    requires OnTrack(cur, done, rest, [cap] + caps, whole, env)
    requires rest != [] && rest[0].Ref?
    ensures cap.0 == rest[0].text && cap.1 == Value(cap.0, env) && IsRef(cap.0, env.word)
    ensures cur == done + cap.0 + Flatten(rest[1..])
    ensures OnTrack(done + cap.1 + Flatten(rest[1..]), done + cap.1, rest[1..], caps, whole, env)
  {
    assert Captures(rest, env) == [(rest[0].text, Value(rest[0].text, env))] + Captures(rest[1..], env);
    assert ([cap] + caps)[0] == cap && ([cap] + caps)[1..] == caps;
    assert done + (cap.0 + Flatten(rest[1..])) == done + cap.0 + Flatten(rest[1..]);
    assert done + (cap.1 + Substitute(rest[1..], env)) == done + cap.1 + Substitute(rest[1..], env);
  }

  /** On track and with no reference behind, the replacement falls where it is meant to. */
  lemma OnTrackStep(cur: string, done: string, rest: seq<Piece>, cap: Capture, caps: seq<Capture>, pos: Option<nat>, whole: string, env: Environment)
    requires OnTrack(cur, done, rest, [cap] + caps, whole, env)
    requires rest != [] && rest[0].Ref? && Count(done, env.word) == 0
    requires FirstAt(cur, cap.0, pos)
    ensures OnTrack(Replace(cur, pos, |cap.0|, cap.1), done + cap.1, rest[1..], caps, whole, env)
  {
    NextPiece(cur, done, rest, cap, caps, whole, env);
    var tail := Flatten(rest[1..]);
    FirstOccurrence(done, cap.0, tail, pos, env.word);
    assert cur[..|done|] == done && cur[|done| + |cap.0|..] == tail;
  }

  /** The loop's invariant: sealed, or every reference has a value and the track is kept. */
  ghost predicate Progress(cur: string, done: string, rest: seq<Piece>, caps: seq<Capture>, pieces: seq<Piece>, env: Environment) {
    var whole := Substitute(pieces, env);
    || (Doomed(cur, caps, env.word) && !(AllSet(pieces, env) && Count(whole, env.word) == 0))
    || (AllSet(pieces, env) && OnTrack(cur, done, rest, caps, whole, env))
  }

  lemma Iterate(cur: string, done: string, rest: seq<Piece>, cap: Capture, caps: seq<Capture>, pos: Option<nat>,
                pieces: seq<Piece>, env: Environment)
    returns (done': string, rest': seq<Piece>)
    requires IsRef(cap.0, env.word) && FirstAt(cur, cap.0, pos)
    requires Progress(cur, done, rest, [cap] + caps, pieces, env)
    ensures Progress(Replace(cur, pos, |cap.0|, cap.1), done', rest', caps, pieces, env)
  {
    done', rest' := done, rest;
    var whole := Substitute(pieces, env);
    if AllSet(pieces, env) && OnTrack(cur, done, rest, [cap] + caps, whole, env) {
      done', rest' := SkipLiterals(cur, done, rest, [cap] + caps, whole, env);
      if Count(done', env.word) == 0 {
        OnTrackStep(cur, done', rest', cap, caps, pos, whole, env);
        done', rest' := done' + cap.1, rest'[1..];
        return;
      }
      Sealed(cur, done', rest', [cap] + caps, whole, env);
    }
    DoomedStep(cur, pos, cap, caps, env.word);
  }

  lemma Start(p: string, env: Environment)
    ensures var pieces := Parse(p, env.word);
            && Progress(p, "", pieces, Captures(pieces, env), pieces, env)
            && forall c :: c in Captures(pieces, env) ==> IsRef(c.0, env.word)
  {
    ParseComplete(p, env.word);
    CapturesOf(Parse(p, env.word), env);
  }

  lemma {:induction false} NoCaptures(rest: seq<Piece>, env: Environment)
    requires AllSet(rest, env) && Captures(rest, env) == []
    ensures Flatten(rest) == Substitute(rest, env)
  {
    if rest != [] {
      NoCaptures(rest[1..], env);
    }
  }

  lemma Finish(cur: string, done: string, rest: seq<Piece>, pieces: seq<Piece>, env: Environment)
    requires Progress(cur, done, rest, [], pieces, env)
    ensures var whole := Substitute(pieces, env);
            if AllSet(pieces, env) && Count(whole, env.word) == 0
            then cur == whole
            else Count(cur, env.word) > 0
  {
    if OnTrack(cur, done, rest, [], Substitute(pieces, env), env) {
      NoCaptures(rest, env);
    }
  }

  /** `expand_path`: collect, replace one by one, then look for what is left. */
  method ExpandPath(path: string, env: Environment) returns (r: Result<string, PathError>)
    ensures r == Expansion(path, env)
  {
    var pathStr := path;
    if path != [] && path[0] == '~' {
      if env.home.Some? {
        pathStr := env.home.value + path[1..];
      } else {
        return Err(NoHome);
      }
    }
    ghost var pieces := Parse(pathStr, env.word);
    Start(pathStr, env);
    var captures := CollectCaptures(pathStr, env);
    pathStr := ReplaceAll(pathStr, captures, pieces, env);
    if Count(pathStr, env.word) > 0 {
      return Err(Unset);
    }
    return Ok(pathStr);
  }

  method ReplaceAll(p: string, captures: seq<Capture>, ghost pieces: seq<Piece>, env: Environment) returns (pathStr: string)
    requires Progress(p, "", pieces, captures, pieces, env)
    requires forall c :: c in captures ==> IsRef(c.0, env.word)
    ensures var whole := Substitute(pieces, env);
            if AllSet(pieces, env) && Count(whole, env.word) == 0
            then pathStr == whole
            else Count(pathStr, env.word) > 0
  {
    pathStr := p;
    ghost var done, rest := "", pieces;
    var i := 0;
    assert captures[0..] == captures;
    while i < |captures|
      invariant 0 <= i <= |captures|
      invariant Progress(pathStr, done, rest, captures[i..], pieces, env)
    {
      var (fullMatch, value) := captures[i];
      assert captures[i] in captures;
      assert captures[i..] == [captures[i]] + captures[i + 1..];
      var pos := Find(pathStr, fullMatch);
      done, rest := Iterate(pathStr, done, rest, captures[i], captures[i + 1..], pos, pieces, env);
      pathStr := Replace(pathStr, pos, |fullMatch|, value);
      i := i + 1;
    }
    assert captures[i..] == [];
    Finish(pathStr, done, rest, pieces, env);
  }

  // ----- consequences -----------------------------------------------------------------------

  lemma {:induction false} NoDollar(pieces: seq<Piece>, env: Environment)
    requires AllSet(pieces, env)
    requires forall i :: 0 <= i < |pieces| ==>
      '$' !in (if pieces[i].Ref? then Value(pieces[i].text, env) else [pieces[i].c])
    ensures '$' !in Substitute(pieces, env)
  {
    if pieces != [] {
      NoDollar(pieces[1..], env);
    }
  }

  /** With no stray `$` in the path after its tilde is expanded, and none in the values, expansion is
      simultaneous substitution. */
  lemma PlainValues(path: string, p: string, env: Environment)
    requires Tilde(path, env) == Some(p)
    requires forall i :: 0 <= i < |Parse(p, env.word)| && Parse(p, env.word)[i].Lit? ==> Parse(p, env.word)[i].c != '$'
    requires forall name :: name in env.vars ==> '$' !in env.vars[name]
    ensures var pieces := Parse(p, env.word);
            Expansion(path, env) == if AllSet(pieces, env) then Ok(Substitute(pieces, env)) else Err(Unset)
  {
    var pieces := Parse(p, env.word);
    if AllSet(pieces, env) {
      NoDollar(pieces, env);
      var whole := Substitute(pieces, env);
      CountSkip(whole, "", env.word);
      assert whole + "" == whole;
    }
  }

  lemma {:induction false} NoRefs(s: string, env: Environment)
    requires Count(s, env.word) == 0
    ensures AllSet(Parse(s, env.word), env) && Substitute(Parse(s, env.word), env) == s
  {
    if s != [] {
      NoRefs(s[1..], env);
    }
  }

  /** An expanded path that does not start with a tilde expands to itself. */
  lemma ExpandTwice(path: string, env: Environment)
    requires Expansion(path, env).Ok?
    ensures var r := Expansion(path, env).value;
            (r == [] || r[0] != '~') ==> Expansion(r, env) == Ok(r)
  {
    NoRefs(Expansion(path, env).value, env);
  }

  lemma ParseRef(t: string, post: string, w: WordClass)
    requires IsRef(t, w)
    ensures Parse(t + post, w) == [Ref(t)] + Parse(post, w)
  {
    RefLenOfPrefix(t, post, w);
    assert (t + post)[..|t|] == t && (t + post)[|t|..] == post;
  }

  /** A value that is itself a reference makes expansion fail although every variable is set. */
  lemma {:induction false} ChainedValue(a: string, b: string, env: Environment)
    requires IsRef(a, env.word) && IsRef(b, env.word)
    requires Name(a) in env.vars && env.vars[Name(a)] == b && Name(b) in env.vars
    ensures var pieces := Parse(a + b, env.word);
            && AllSet(pieces, env)
            && Substitute(pieces, env) == b + env.vars[Name(b)]
            && Expansion(a + b, env) == Err(Unset)
  {
    ParseRef(a, b, env.word);
    ParseRef(b, "", env.word);
    assert b + "" == b;
    assert Parse(a + b, env.word) == [Ref(a), Ref(b)];
    var v := env.vars[Name(b)];
    assert [Ref(a), Ref(b)][1..] == [Ref(b)];
    assert Substitute([Ref(b)], env) == v + "" == v;
    CountRef(b, v, env.word);
  }

  // ----- the reference, written out ---------------------------------------------------------------

  lemma {:induction false} PlainParse(s: string, rest: string, w: WordClass)
    requires '$' !in s
    ensures Parse(s + rest, w) == Parse(s, w) + Parse(rest, w)
    ensures forall p :: p in Parse(s, w) ==> p.Lit? && p.c in s
    decreases |s|
  {
    if s == "" {
      assert s + rest == rest;
    } else {
      assert s[0] in s && (s + rest)[1..] == s[1..] + rest;
      PlainParse(s[1..], rest, w);
    }
  }

  lemma AllSetSplit(a: seq<Piece>, b: seq<Piece>, env: Environment)
    ensures AllSet(a + b, env) <==> AllSet(a, env) && AllSet(b, env)
  {
    assert forall i :: 0 <= i < |a| ==> (a + b)[i] == a[i];
    assert forall i :: 0 <= i < |b| ==> (a + b)[|a| + i] == b[i];
  }

  lemma {:induction false} SubstituteSplit(a: seq<Piece>, b: seq<Piece>, env: Environment)
    ensures Substitute(a + b, env) == Substitute(a, env) + Substitute(b, env)
    decreases |a|
  {
    if a == [] {
      assert a + b == b && "" + Substitute(b, env) == Substitute(b, env);
    } else {
      var first := if a[0].Ref? then Value(a[0].text, env) else [a[0].c];
      assert (a + b)[0] == a[0] && (a + b)[1..] == a[1..] + b;
      SubstituteSplit(a[1..], b, env);
      assert first + (Substitute(a[1..], env) + Substitute(b, env)) == first + Substitute(a[1..], env) + Substitute(b, env);
    }
  }

  lemma PlainMeaning(s: string, env: Environment)
    requires '$' !in s
    ensures AllSet(Parse(s, env.word), env) && Substitute(Parse(s, env.word), env) == s
  {
    CountSkip(s, "", env.word);
    assert s + "" == s;
    NoRefs(s, env);
  }

  lemma DollarBrace(name: string, env: Environment)
    requires name != "" && forall i :: 0 <= i < |name| ==> name[i] in env.word
    ensures var t := "${" + name + "}"; IsRef(t, env.word) && Name(t) == name
  {
    var t := "${" + name + "}";
    assert t[2..|t| - 1] == name;
    assert forall i :: 2 <= i < |t| - 1 ==> t[i] == name[i - 2];
  }

  /** What a path around one reference parses to, and what that stands for. */
  lemma AroundReference(pre: string, t: string, post: string, env: Environment)
    requires IsRef(t, env.word) && '$' !in pre && '$' !in post
    ensures var pieces := Parse(pre + (t + post), env.word);
            && (AllSet(pieces, env) <==> Name(t) in env.vars)
            && Substitute(pieces, env) == pre + (Value(t, env) + post)
  {
    var w := env.word;
    PlainParse(pre, t + post, w);
    ParseRef(t, post, w);
    SubstituteSplit(Parse(pre, w), [Ref(t)] + Parse(post, w), env);
    AllSetSplit(Parse(pre, w), [Ref(t)] + Parse(post, w), env);
    SubstituteSplit([Ref(t)], Parse(post, w), env);
    AllSetSplit([Ref(t)], Parse(post, w), env);
    PlainMeaning(pre, env);
    PlainMeaning(post, env);
    assert [Ref(t)][0] == Ref(t) && [Ref(t)][1..] == [] && Value(t, env) + "" == Value(t, env);
  }

  /** Text without `$` is a path's outcome when it is what the path stands for. */
  lemma PlainOutcome(path: string, whole: string, env: Environment)
    requires path == "" || path[0] != '~'
    requires '$' !in whole && Substitute(Parse(path, env.word), env) == whole
    ensures Expansion(path, env) == if AllSet(Parse(path, env.word), env) then Ok(whole) else Err(Unset)
  {
    CountSkip(whole, "", env.word);
    assert whole + "" == whole;
  }

  /** A path around one reference: the named variable's value takes its place, and an unset one is an
      error. */
  lemma OneReference(pre: string, name: string, post: string, env: Environment)
    requires name != "" && forall i :: 0 <= i < |name| ==> name[i] in env.word
    requires '$' !in pre && '$' !in post && (pre == "" || pre[0] != '~')
    ensures name !in env.vars ==> Expansion(pre + "${" + name + "}" + post, env) == Err(Unset)
    ensures name in env.vars && '$' !in env.vars[name] ==>
      Expansion(pre + "${" + name + "}" + post, env) == Ok(pre + env.vars[name] + post)
  {
    var t := "${" + name + "}";
    var path := pre + "${" + name + "}" + post;
    assert path == pre + (t + post) && path[0] != '~';
    DollarBrace(name, env);
    AroundReference(pre, t, post, env);
    if name in env.vars && '$' !in env.vars[name] {
      assert pre + (env.vars[name] + post) == pre + env.vars[name] + post;
      PlainOutcome(path, pre + env.vars[name] + post, env);
    }
  }

  /** A leading tilde, and only that one, becomes the home directory in front of the rest. */
  lemma TildeFirst(rest: string, env: Environment)
    requires '$' !in rest
    ensures env.home == None ==> Expansion("~" + rest, env) == Err(NoHome)
    ensures env.home.Some? && '$' !in env.home.value ==> Expansion("~" + rest, env) == Ok(env.home.value + rest)
  {
    var path := "~" + rest;
    assert path[0] == '~' && path[1..] == rest;
    if env.home.Some? && '$' !in env.home.value {
      var whole := env.home.value + rest;
      PlainMeaning(whole, env);
      CountSkip(whole, "", env.word);
      assert whole + "" == whole;
    }
  }

  /** A path without tilde and dollar expands to itself. */
  lemma PlainPath(path: string, env: Environment)
    requires '$' !in path && (path == "" || path[0] != '~')
    ensures Expansion(path, env) == Ok(path)
  {
    PlainMeaning(path, env);
    CountSkip(path, "", env.word);
    assert path + "" == path;
  }

  /** Paths side by side: what follows does not disturb what stands before, when it starts a reference
      anew; so several references are replaced each in its place. */
  lemma SideBySide(a: string, b: string, env: Environment)
    requires b != "" && b[0] == '$' && (a == "" || a[0] != '~')
    requires Expansion(a, env).Ok? && Expansion(b, env).Ok?
    ensures '$' !in Expansion(a, env).value && '$' !in Expansion(b, env).value ==>
      Expansion(a + b, env) == Ok(Expansion(a, env).value + Expansion(b, env).value)
  {
    var w := env.word;
    ParseSplit(a, b, w);
    SubstituteSplit(Parse(a, w), Parse(b, w), env);
    AllSetSplit(Parse(a, w), Parse(b, w), env);
    var whole := Substitute(Parse(a, w), env) + Substitute(Parse(b, w), env);
    if '$' !in Expansion(a, env).value && '$' !in Expansion(b, env).value {
      CountSkip(whole, "", w);
      assert whole + "" == whole;
    }
  }

  lemma ParseFirst(s: string, w: WordClass) returns (p: Piece, k: nat)
    requires s != ""
    ensures p == (if RefLen(s, w) > 0 then Ref(s[..RefLen(s, w)]) else Lit(s[0]))
    ensures k == (if RefLen(s, w) > 0 then RefLen(s, w) else 1) && k <= |s|
    ensures Parse(s, w) == [p] + Parse(s[k..], w)
  {
    p := if RefLen(s, w) > 0 then Ref(s[..RefLen(s, w)]) else Lit(s[0]);
    k := if RefLen(s, w) > 0 then RefLen(s, w) else 1;
  }

  lemma Prefix(a: string, b: string, k: nat)
    requires k <= |a|
    ensures (a + b)[..k] == a[..k] && (a + b)[k..] == a[k..] + b
  {
  }

  lemma SameFirst(a: string, b: string, w: WordClass) returns (p: Piece, k: nat)
    requires a != "" && b != "" && b[0] == '$'
    ensures 0 < k <= |a| && Parse(a, w) == [p] + Parse(a[k..], w) && Parse(a + b, w) == [p] + Parse(a[k..] + b, w)
  {
    p, k := ParseFirst(a, w);
    SameRefLen(a, b, w);
    Prefix(a, b, k);
    Prefix(a, b, RefLen(a, w));
    var q, l := ParseFirst(a + b, w);
    assert (a + b)[0] == a[0];
    assert q == p;
  }

  lemma SameRefLen(a: string, b: string, w: WordClass)
    requires a != "" && b != "" && b[0] == '$'
    ensures RefLen(a + b, w) == RefLen(a, w)
  {
    RefLenCut(a, b, w);
  }

  lemma JoinThree(p: seq<Piece>, x: seq<Piece>, y: seq<Piece>)
    ensures p + (x + y) == p + x + y
  {
  }

  lemma {:induction false} ParseSplit(a: string, b: string, w: WordClass)
    requires b != "" && b[0] == '$'
    ensures Parse(a + b, w) == Parse(a, w) + Parse(b, w)
    decreases |a|
  {
    if a == "" {
      assert a + b == b;
      assert Parse(a, w) == [];
      assert [] + Parse(b, w) == Parse(b, w);
    } else {
      var p, k := SameFirst(a, b, w);
      ParseSplit(a[k..], b, w);
      JoinThree([p], Parse(a[k..], w), Parse(b, w));
    }
  }
}
