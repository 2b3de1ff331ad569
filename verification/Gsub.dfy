/** `string.gsub` with a replacement string (stringlib.go, utils.go). */
module Gsub {
  import opened PatternSyntax
  import opened PatternSemantics
  import opened PatternFind

  datatype Result<T> = Ok(value: T) | Err

  const PERCENT: byte := 37

  type Text = seq<byte>

  // ----- the replacement string -----

  function Decimal(n: nat): (r: Text) {
    if n < 10 then [48 + n] else Decimal(n / 10) + [48 + n % 10]
  }

  /** The text of capture `idx / 2`; `%1` without captures is the whole match. */
  function CapturedString(caps: Captures, str: Text, idx: nat): (r: Result<Text>) {
    if idx > 2 && idx >= |caps| then Err
    else
      var i := if idx >= |caps| && idx == 2 then 0 else idx;
      if i < |caps| && caps[i] % 2 == 1 then Ok(Decimal(MarkPos(caps[i])))
      else if i + 1 < |caps| && MarkPos(caps[i]) <= MarkPos(caps[i + 1]) <= |str|
      then Ok(str[MarkPos(caps[i])..MarkPos(caps[i + 1])])
      else Err
  }

  function Prepend(a: Text, r: Result<Text>): Result<Text> {
    if r.Ok? then Ok(a + r.value) else Err
  }

  /** The replacement for one match: `%%` is a percent sign, `%d` a capture, and
      `%` before anything else, or at the end, stands for itself. */
  function Expand(repl: Text, caps: Captures, str: Text): (r: Result<Text>) {
    if repl == [] then Ok([])
    else if repl[0] == PERCENT && |repl| >= 2 then
      if repl[1] == PERCENT then Prepend([PERCENT], Expand(repl[2..], caps, str))
      else if IsDigit(repl[1]) then
        match CapturedString(caps, str, 2 * (repl[1] - 48))
        case Err => Err
        case Ok(text) => Prepend(text, Expand(repl[2..], caps, str))
      else Prepend([PERCENT, repl[1]], Expand(repl[2..], caps, str))
    else Prepend([repl[0]], Expand(repl[1..], caps, str))
  }

  lemma {:induction false} PrependAssoc(a: Text, b: Text, r: Result<Text>)
    ensures Prepend(a, Prepend(b, r)) == Prepend(a + b, r)
  {
    if r.Ok? {
      assert a + (b + r.value) == (a + b) + r.value;
    }
  }

  /** Two splits of a replacement into finished text and the rest to expand
      that stand for the same result, for every match. */
  ghost predicate SameText(done: Text, rest: Text, done': Text, rest': Text) {
    forall caps, str :: Prepend(done, Expand(rest, caps, str)) == Prepend(done', Expand(rest', caps, str))
  }

  lemma {:induction false} SameTextTrans(a: Text, r: Text, a': Text, r': Text, a'': Text, r'': Text)
    requires SameText(a, r, a', r') && SameText(a', r', a'', r'')
    ensures SameText(a, r, a'', r'')
  {
    forall caps, str ensures Prepend(a, Expand(r, caps, str)) == Prepend(a'', Expand(r'', caps, str)) {
      assert Prepend(a', Expand(r', caps, str)) == Prepend(a'', Expand(r'', caps, str));
    }
  }

  lemma {:induction false} SkipPercent(done: Text, rest: Text)
    requires |rest| >= 2 && rest[0] == PERCENT && rest[1] == PERCENT
    ensures SameText(done, rest, done + [PERCENT], rest[2..])
  {
    forall caps, str ensures Prepend(done, Expand(rest, caps, str)) == Prepend(done + [PERCENT], Expand(rest[2..], caps, str)) {
      PrependAssoc(done, [PERCENT], Expand(rest[2..], caps, str));
    }
  }

  /** The scanner over the replacement string: a lone flag character sets
      `hasFlag` for the next one, a doubled flag is taken literally. */
  class FlagScanner {
    const str: Text
    var buf: Text
    var pos: nat
    var hasFlag: bool
    var changeFlag: bool

    constructor (str: Text)
      ensures this.str == str && buf == [] && pos == 0 && !hasFlag && !changeFlag
    {
      this.str, buf, pos, hasFlag, changeFlag := str, [], 0, false, false;
    }

    predicate Valid()
      reads this
    {
      pos <= |str| && (hasFlag ==> 1 <= pos < |str| && str[pos - 1] == PERCENT && str[pos] != PERCENT)
    }

    /** What is not yet scanned, including a pending flag. */
    function Rest(): Text
      requires Valid()
      reads this
    {
      if hasFlag then str[pos - 1..] else str[pos..]
    }

    method Next() returns (c: byte, eos: bool)
      requires Valid()
      modifies this
      ensures Valid'(c, eos) && (!eos ==> pos > old(pos))
      ensures SameText(old(buf), old(Rest()), buf, if eos then [] else Remaining(c))
      decreases |str| - pos
    {
      c, eos := 0, true;
      changeFlag := false;
      if pos == |str| {
        return;
      }
      eos := false;
      c := str[pos];
      if c == PERCENT {
        if pos < |str| - 1 && str[pos + 1] == PERCENT {
          ghost var before, rest := buf, Rest();
          SkipPair();
          ghost var mid, midRest := buf, Rest();
          c, eos := Next();
          SameTextTrans(before, rest, mid, midRest, buf, if eos then [] else Remaining(c));
          return;
        }
        if pos != |str| - 1 {
          changeFlag := true;
          hasFlag := true;
        }
      }
      pos := pos + 1;
    }

    /** A doubled flag is the character itself. */
    method SkipPair()
      requires Valid() && pos + 1 < |str| && str[pos] == PERCENT && str[pos + 1] == PERCENT
      modifies this
      ensures Valid() && pos == old(pos) + 2 && changeFlag == old(changeFlag)
      ensures SameText(old(buf), old(Rest()), buf, Rest())
    {
      ghost var before, rest := buf, Rest();
      assert rest[2..] == str[pos + 2..];
      hasFlag := false;
      buf := buf + [PERCENT];
      pos := pos + 2;
      SkipPercent(before, rest);
    }

    /** The state after a character was returned but not yet acted on. */
    predicate Valid'(c: byte, eos: bool)
      reads this
    {
      && pos <= |str|
      && (eos ==> pos == |str| && !hasFlag)
      && (!eos ==> pos >= 1 && c == str[pos - 1])
      && (!eos && changeFlag ==> hasFlag && c == PERCENT && pos < |str| && str[pos] != PERCENT)
      && (!eos && !changeFlag && hasFlag ==> pos >= 2 && str[pos - 2] == PERCENT && c != PERCENT)
      && (!eos && !changeFlag && !hasFlag && c == PERCENT ==> pos == |str|)
    }

    function Remaining(c: byte): Text
      requires Valid'(c, false)
      reads this
    {
      if !changeFlag && hasFlag then str[pos - 2..] else str[pos - 1..]
    }
  }

  lemma {:induction false} PrependNone(r: Result<Text>)
    ensures Prepend([], r) == r
  {
    if r.Ok? {
      assert [] + r.value == r.value;
    }
  }

  lemma {:induction false} ExpandFlag(done: Text, rest: Text, caps: Captures, str: Text)
    requires |rest| >= 2 && rest[0] == PERCENT && rest[1] != PERCENT
    ensures IsDigit(rest[1]) ==>
              var text := CapturedString(caps, str, 2 * (rest[1] - 48));
              if text.Err? then Expand(rest, caps, str) == Err
              else Prepend(done, Expand(rest, caps, str)) == Prepend(done + text.value, Expand(rest[2..], caps, str))
    ensures !IsDigit(rest[1]) ==>
              Prepend(done, Expand(rest, caps, str)) == Prepend(done + [PERCENT] + [rest[1]], Expand(rest[2..], caps, str))
  {
    var tail := Expand(rest[2..], caps, str);
    if IsDigit(rest[1]) {
      var text := CapturedString(caps, str, 2 * (rest[1] - 48));
      if text.Ok? {
        PrependAssoc(done, text.value, tail);
      }
    } else {
      PrependAssoc(done, [PERCENT, rest[1]], tail);
      assert done + [PERCENT] + [rest[1]] == done + [PERCENT, rest[1]];
    }
  }

  lemma {:induction false} ExpandPlain(done: Text, rest: Text, caps: Captures, str: Text)
    requires rest != [] && (rest[0] == PERCENT ==> |rest| == 1)
    ensures Prepend(done, Expand(rest, caps, str)) == Prepend(done + [rest[0]], Expand(rest[1..], caps, str))
  {
    PrependAssoc(done, [rest[0]], Expand(rest[1..], caps, str));
  }

  /** Acts on one scanned character; fails on an invalid capture index. */
  method TakeChar(sc: FlagScanner, c: byte, caps: Captures, str: Text) returns (ok: bool)
    requires sc.Valid'(c, false)
    modifies sc
    ensures sc.pos == old(sc.pos)
    ensures !ok ==> Expand(old(sc.Remaining(c)), caps, str) == Err
    ensures ok ==> sc.Valid() && Prepend(old(sc.buf), Expand(old(sc.Remaining(c)), caps, str))
                              == Prepend(sc.buf, Expand(sc.Rest(), caps, str))
  {
    ghost var rest, done := sc.Remaining(c), sc.buf;
    if sc.changeFlag {
      return true;
    }
    if sc.hasFlag {
      ExpandFlag(done, rest, caps, str);
      assert rest[2..] == sc.str[sc.pos..];
      if IsDigit(c) {
        var text := CapturedString(caps, str, 2 * (c - 48));
        if text.Err? {
          return false;
        }
        sc.buf := sc.buf + text.value;
      } else {
        sc.buf := sc.buf + [PERCENT] + [c];
      }
      sc.hasFlag := false;
    } else {
      ExpandPlain(done, rest, caps, str);
      assert rest[1..] == sc.str[sc.pos..];
      sc.buf := sc.buf + [c];
    }
    return true;
  }

  /** Expands the replacement string for one match. */
  method ReplacementFor(repl: Text, caps: Captures, str: Text) returns (r: Result<Text>)
    ensures r == Expand(repl, caps, str)
  {
    var sc := new FlagScanner(repl);
    ghost var all := Expand(repl, caps, str);
    PrependNone(all);
    assert sc.Rest() == repl;
    var c, eos := sc.Next();
    assert all == Prepend(sc.buf, Expand(if eos then [] else sc.Remaining(c), caps, str));
    while !eos
      invariant sc.str == repl && sc.Valid'(c, eos)
      invariant all == Prepend(sc.buf, Expand(if eos then [] else sc.Remaining(c), caps, str))
      decreases !eos, |repl| - sc.pos
    {
      var ok := TakeChar(sc, c, caps, str);
      if !ok {
        return Err;
      }
      c, eos := sc.Next();
    }
    r := Ok(sc.buf);
    assert sc.buf + [] == sc.buf;
  }

  // ----- putting the result together -----

  datatype Replacement = Replacement(start: nat, end: nat, text: Text)

  /** The replacements lie in the text from `offset` on, in order. */
  ghost predicate InOrder(str: Text, offset: nat, info: seq<Replacement>)
    decreases info
  {
    if info == [] then offset <= |str|
    else offset <= info[0].start <= info[0].end <= |str| && InOrder(str, info[0].end, info[1..])
  }

  /** Every gap is a slice of the text. */
  predicate Sliceable(str: Text, offset: nat, info: seq<Replacement>)
    decreases info
  {
    if info == [] then offset <= |str|
    else offset <= info[0].start <= |str| && Sliceable(str, info[0].end, info[1..])
  }

  lemma {:induction false} OrderedSliceable(str: Text, offset: nat, info: seq<Replacement>)
    requires InOrder(str, offset, info)
    ensures Sliceable(str, offset, info)
    decreases info
  {
    if info != [] {
      OrderedSliceable(str, info[0].end, info[1..]);
    }
  }

  /** The untouched gaps interleaved with the replacement texts. */
  function Replaced(str: Text, offset: nat, info: seq<Replacement>): (r: Text)
    requires Sliceable(str, offset, info)
    decreases info
  {
    if info == [] then str[offset..]
    else str[offset..info[0].start] + info[0].text + Replaced(str, info[0].end, info[1..])
  }

  /** The same, or an error where the source slices out of range. */
  function PutIn(str: Text, offset: nat, info: seq<Replacement>): (r: Result<Text>) {
    if Sliceable(str, offset, info) then Ok(Replaced(str, offset, info)) else Err
  }

  /** One replacement more. */
  lemma {:induction false} PutInStep(str: Text, offset: nat, info: seq<Replacement>, buf: Text)
    requires info != []
    ensures var one := info[0];
            Prepend(buf, PutIn(str, offset, info))
            == if offset <= one.start <= |str| then Prepend(buf + str[offset..one.start] + one.text, PutIn(str, one.end, info[1..])) else Err
  {
    var one := info[0];
    if Sliceable(str, offset, info) {
      var rest := Replaced(str, one.end, info[1..]);
      assert buf + (str[offset..one.start] + one.text + rest) == buf + str[offset..one.start] + one.text + rest;
    }
  }

  method DoReplace(str: Text, info: seq<Replacement>) returns (r: Result<Text>)
    ensures r == PutIn(str, 0, info)
  {
    if |info| == 0 {
      return Ok(str);
    }
    var buf: Text, offset: nat := [], 0;
    PrependNone(PutIn(str, 0, info));
    assert info[0..] == info;
    for k := 0 to |info|
      invariant PutIn(str, 0, info) == Prepend(buf, PutIn(str, offset, info[k..]))
    {
      var replace := info[k];
      assert info[k..][0] == replace && info[k..][1..] == info[k + 1..];
      PutInStep(str, offset, info[k..], buf);
      if !(offset <= replace.start <= |str|) {
        return Err;
      }
      buf := buf + str[offset..replace.start] + replace.text;
      offset := replace.end;
    }
    if offset > |str| {
      return Err;
    }
    return Ok(buf + str[offset..]);
  }

  /** Replacing every stretch by itself changes nothing. */
  lemma {:induction false} ReplaceBySelf(str: Text, offset: nat, info: seq<Replacement>)
    requires Sliceable(str, offset, info)
    requires forall i :: 0 <= i < |info| ==> info[i].start <= info[i].end <= |str| && info[i].text == str[info[i].start..info[i].end]
    ensures Replaced(str, offset, info) == str[offset..]
    decreases info
  {
    if info == [] {
    } else {
      ReplaceBySelf(str, info[0].end, info[1..]);
      assert str[offset..] == str[offset..info[0].start] + str[info[0].start..info[0].end] + str[info[0].end..];
    }
  }

  // ----- gsub -----

  /** A capture position; a missing slot reads as 0. */
  function Capture(caps: Captures, idx: nat): nat {
    if idx < |caps| then MarkPos(caps[idx]) else 0
  }

  /** The replacements of a list of matches, up to the first error. */
  function Replacements(str: Text, repl: Text, ms: seq<Captures>): (r: Result<seq<Replacement>>) {
    if ms == [] then Ok([])
    else
      var text, rest := Expand(repl, ms[0], str), Replacements(str, repl, ms[1..]);
      if text.Err? || rest.Err? then Err
      else Ok([Replacement(Capture(ms[0], 0), Capture(ms[0], 1), text.value)] + rest.value)
  }

  lemma {:induction false} ReplacementsInOrder(pat: SeqPattern, str: Text, repl: Text, ms: seq<Match>, from: nat)
    requires |str| < 0x8000_0000 && from <= |str|
    requires Ordered(AttemptsOf(pat, str), from, |str|, ms)
    requires forall i :: 0 <= i < |ms| ==> GoodMatch(pat, str, ms[i].start, ms[i].st)
    ensures var r := Replacements(str, repl, AllCaptures(ms)); r.Ok? ==> InOrder(str, from, r.value)
    decreases ms
  {
    if ms == [] {
    } else {
      MarkRoundTrip(ms[0].start);
      MarkRoundTrip(ms[0].st.pos);
      assert AllCaptures(ms)[1..] == AllCaptures(ms[1..]);
      assert forall i :: 0 <= i < |ms[1..]| ==> ms[1..][i] == ms[i + 1];
      ReplacementsInOrder(pat, str, repl, ms[1..], ms[0].st.pos);
    }
  }

  /** The replacement list of all matches, or an error. */
  method AllReplacements(str: Text, repl: Text, ms: seq<Captures>) returns (r: Result<seq<Replacement>>)
    ensures r == Replacements(str, repl, ms)
  {
    var info: seq<Replacement> := [];
    assert ms[0..] == ms;
    assert forall r: seq<Replacement> :: [] + r == r;
    for k := 0 to |ms|
      invariant var rest := Replacements(str, repl, ms[k..]);
                Replacements(str, repl, ms) == if rest.Err? then Err else Ok(info + rest.value)
    {
      assert ms[k..][0] == ms[k] && ms[k..][1..] == ms[k + 1..];
      var text := ReplacementFor(repl, ms[k], str);
      if text.Err? {
        return Err;
      }
      ghost var rest := Replacements(str, repl, ms[k + 1..]);
      assert rest.Ok? ==> forall one: seq<Replacement> :: info + (one + rest.value) == (info + one) + rest.value;
      info := info + [Replacement(Capture(ms[k], 0), Capture(ms[k], 1), text.value)];
    }
    assert info + [] == info;
    r := Ok(info);
  }

  /** What the matches `ms` make of the text. */
  function Substituted(str: Text, repl: Text, ms: seq<Captures>): (r: Result<Text>) {
    var info := Replacements(str, repl, ms);
    if info.Ok? then PutIn(str, 0, info.value) else Err
  }

  /** `string.gsub` with a replacement string; a failed capture index raises. */
  method StrGsub(str: Text, pat: SeqPattern, repl: Text, limit: int) returns (r: Result<(Text, nat)>)
    ensures var ms := AllCaptures(FindFrom(pat, str, 0, limit)); var out := Substituted(str, repl, ms);
            if out.Ok? then r == Ok((out.value, |ms|)) else r == Err
  {
    var ms := Find(pat, str, 0, limit);
    if |ms| == 0 {
      return Ok((str, 0));
    }
    var info := AllReplacements(str, repl, ms);
    if info.Err? {
      return Err;
    }
    var out := DoReplace(str, info.value);
    r := if out.Ok? then Ok((out.value, |ms|)) else Err;
  }

  // ----- what gsub promises -----

  /** Below 2^31 bytes the replacements of all matches are in order, so that the call
      fails only for a capture that the pattern does not have. */
  lemma {:induction false} GsubInOrder(pat: SeqPattern, str: Text, repl: Text, limit: int)
    requires |str| < 0x8000_0000
    ensures var info := Replacements(str, repl, AllCaptures(FindFrom(pat, str, 0, limit)));
            info.Ok? ==> InOrder(str, 0, info.value) && Sliceable(str, 0, info.value)
  {
    var ms := FindFrom(pat, str, 0, limit);
    FindOrdered(pat, str, 0, limit);
    ReplacementsInOrder(pat, str, repl, ms, 0);
    var info := Replacements(str, repl, AllCaptures(ms));
    if info.Ok? {
      OrderedSliceable(str, 0, info.value);
    }
  }

  const WHOLE_MATCH: Text := [PERCENT, 48]

  /** A position as a slot gives it back. */
  function Wrapped(pos: nat): nat {
    pos % 0x8000_0000
  }

  lemma {:induction false} WrappedMark(pos: nat)
    ensures MarkPos(Mark(pos)) == Wrapped(pos) && Mark(pos) % 2 == 0 && Wrapped(pos) <= pos
  {
    var q, r := pos / 0x8000_0000, pos % 0x8000_0000;
    assert pos * 2 == 0x1_0000_0000 * q + r * 2;
  }

  /** The bounds of the matches are in order as the slots give them back. */
  ghost predicate BoundsInOrder(ms: seq<Match>, offset: nat)
    decreases ms
  {
    ms != [] ==>
      offset <= Wrapped(ms[0].start) <= Wrapped(ms[0].st.pos) && BoundsInOrder(ms[1..], Wrapped(ms[0].st.pos))
  }

  lemma {:induction false} ExpandWholeMatch(caps: Captures, str: Text, start: nat, end: nat)
    requires |caps| >= 2 && caps[0] == Mark(start) && caps[1] == Mark(end) && start <= end <= |str|
    ensures Expand(WHOLE_MATCH, caps, str)
         == if Wrapped(start) <= Wrapped(end) <= |str| then Ok(str[Wrapped(start)..Wrapped(end)]) else Err
    ensures Wrapped(end) <= |str|
  {
    WrappedMark(start);
    WrappedMark(end);
    assert WHOLE_MATCH[2..] == [];
    if Wrapped(start) <= Wrapped(end) {
      var text := str[Wrapped(start)..Wrapped(end)];
      assert CapturedString(caps, str, 0) == Ok(text);
      assert text + [] == text;
    }
  }

  /** The replacements by `%0`: they exist and can be put in exactly if the bounds are
      in order, and then each is the stretch it replaces. */
  lemma {:induction false} WholeMatchReplacements(pat: SeqPattern, str: Text, ms: seq<Match>, offset: nat)
    requires offset <= |str| && forall i :: 0 <= i < |ms| ==> GoodMatch(pat, str, ms[i].start, ms[i].st)
    ensures var r := Replacements(str, WHOLE_MATCH, AllCaptures(ms));
            && (r.Ok? && Sliceable(str, offset, r.value) <==> BoundsInOrder(ms, offset))
            && (r.Ok? ==> forall i :: 0 <= i < |r.value| ==> && r.value[i].start <= r.value[i].end <= |str|
                                                             && r.value[i].text == str[r.value[i].start..r.value[i].end])
    decreases ms
  {
    if ms != [] {
      var m := ms[0];
      ExpandWholeMatch(m.st.caps, str, m.start, m.st.pos);
      WrappedMark(m.start);
      WrappedMark(m.st.pos);
      assert AllCaptures(ms)[1..] == AllCaptures(ms[1..]);
      assert forall i :: 0 <= i < |ms[1..]| ==> ms[1..][i] == ms[i + 1];
      WholeMatchReplacements(pat, str, ms[1..], Wrapped(m.st.pos));
      var rest := Replacements(str, WHOLE_MATCH, AllCaptures(ms[1..]));
      var r := Replacements(str, WHOLE_MATCH, AllCaptures(ms));
      if r.Ok? {
        assert r.value[1..] == rest.value && forall i :: 0 < i < |r.value| ==> r.value[i] == rest.value[i - 1];
      }
    }
  }

  /** Replacing every match of any pattern by `%0` returns the subject exactly if the
      slots give the bounds back in order, and fails if not. */
  lemma {:induction false} GsubWholeMatch(pat: SeqPattern, str: Text, limit: int)
    ensures var ms := FindFrom(pat, str, 0, limit);
            Substituted(str, WHOLE_MATCH, AllCaptures(ms)) == if BoundsInOrder(ms, 0) then Ok(str) else Err
  {
    var ms := FindFrom(pat, str, 0, limit);
    FindOrdered(pat, str, 0, limit);
    WholeMatchReplacements(pat, str, ms, 0);
    var r := Replacements(str, WHOLE_MATCH, AllCaptures(ms));
    if BoundsInOrder(ms, 0) {
      ReplaceBySelf(str, 0, r.value);
    }
  }

  /** For every subject below 2^31 bytes they are. */
  lemma {:induction false} GsubWholeMatchIsIdentity(pat: SeqPattern, str: Text, limit: int)
    requires |str| < 0x8000_0000
    ensures Substituted(str, WHOLE_MATCH, AllCaptures(FindFrom(pat, str, 0, limit))) == Ok(str)
  {
    GsubWholeMatch(pat, str, limit);
    FindOrdered(pat, str, 0, limit);
    SmallBounds(AttemptsOf(pat, str), str, FindFrom(pat, str, 0, limit), 0);
  }

  lemma {:induction false} SmallBounds(at: Attempts, str: Text, ms: seq<Match>, from: nat)
    requires |str| < 0x8000_0000 && Ordered(at, from, |str|, ms)
    requires forall i :: 0 <= i < |ms| ==> ms[i].start <= ms[i].st.pos <= |str|
    ensures BoundsInOrder(ms, from)
    decreases ms
  {
    if ms != [] {
      assert forall i :: 0 <= i < |ms[1..]| ==> ms[1..][i] == ms[i + 1];
      assert Wrapped(ms[0].start) == ms[0].start && Wrapped(ms[0].st.pos) == ms[0].st.pos;
      SmallBounds(at, str, ms[1..], ms[0].st.pos);
    }
  }

  /** The pattern `.`, for which 2^31 is the exact bound. */
  const ANY: SeqPattern := SeqPattern(false, false, [SingleP(Dot)])

  lemma {:induction false} AnyMatches(str: Text, pos: nat)
    requires pos <= |str|
    ensures MatchAt(ANY, str, pos).Some? <==> pos < |str|
    ensures pos < |str| ==> MatchAt(ANY, str, pos).value.pos == pos + 1
  {
    var items, st := ANY.items, State(pos, SetCapture([], 0, pos));
    assert items[1..] == [];
    var one := ItemTree(items[0], 2, str, st);
    assert one == if pos < |str| then Live(st.(pos := pos + 1)) else Dead;
    assert SeqTree(items, 2, str, st) == ThenTree(one, [], 2, str) == one;
  }

  lemma {:induction false} EachInOrder(ms: seq<Match>, offset: nat, i: nat)
    requires BoundsInOrder(ms, offset) && i < |ms|
    ensures Wrapped(ms[i].start) <= Wrapped(ms[i].st.pos)
    decreases ms
  {
    if i > 0 {
      EachInOrder(ms[1..], Wrapped(ms[0].st.pos), i - 1);
    }
  }

  /** A match across 2^31 whose bounds come back in the wrong order. */
  lemma {:induction false} BoundsBroken(str: Text, ms: seq<Match>, q: nat)
    requires q == 0x7FFF_FFFF < |str| && Covered(ms, q)
    requires forall i :: 0 <= i < |ms| ==> ms[i].st.pos == ms[i].start + 1
    ensures !BoundsInOrder(ms, 0)
  {
    var i :| 0 <= i < |ms| && (ms[i].start == q || ms[i].start < q < ms[i].st.pos);
    if BoundsInOrder(ms, 0) {
      EachInOrder(ms, 0, i);
    }
  }

  lemma {:induction false} GsubAnyWholeMatch(pat: SeqPattern, str: Text, limit: int)
    requires pat == ANY && limit < 1
    ensures Substituted(str, WHOLE_MATCH, AllCaptures(FindFrom(pat, str, 0, limit))) == if |str| < 0x8000_0000 then Ok(str) else Err
  {
    GsubWholeMatch(pat, str, limit);
    if |str| < 0x8000_0000 {
      GsubWholeMatchIsIdentity(pat, str, limit);
    } else {
      AnyBreaks(pat, str, limit, FindFrom(pat, str, 0, limit), 0x7FFF_FFFF);
    }
  }

  lemma {:induction false} AnyBreaks(pat: SeqPattern, str: Text, limit: int, ms: seq<Match>, q: nat)
    requires pat == ANY && limit < 1 && ms == FindFrom(pat, str, 0, limit) && q == 0x7FFF_FFFF < |str|
    ensures !BoundsInOrder(ms, 0)
  {
    FindOrdered(pat, str, 0, limit);
    AnyMatches(str, q);
    FindComplete(pat, str, 0, limit, q);
    forall i | 0 <= i < |ms| ensures ms[i].st.pos == ms[i].start + 1 {
      assert AttemptsOf(pat, str)(ms[i].start) == Some(ms[i].st);
      AnyMatches(str, ms[i].start);
    }
    BoundsBroken(str, ms, q);
  }

  /** A capture reference fails when the pattern has no such capture, and below 2^31
      bytes only then. */
  lemma {:induction false} CaptureIndexValid(pat: SeqPattern, str: Text, start: nat, st: State, d: nat)
    requires GoodMatch(pat, str, start, st)
    ensures CapturedString(st.caps, str, 2 * d).Ok? ==> d <= CapCounts(pat.items) || d == 1
    ensures |str| < 0x8000_0000 && (d <= CapCounts(pat.items) || d == 1) ==> CapturedString(st.caps, str, 2 * d).Ok?
  {
    WrappedMark(start);
    WrappedMark(st.pos);
    if |str| < 0x8000_0000 {
      assert Closed(st.caps, 2 * 0, str);
      if d <= CapCounts(pat.items) {
        assert Closed(st.caps, 2 * d, str);
      }
    }
  }

  // ----- what a replacement string stands for -----

  /** The number that decimal digits write. */
  function NumberOf(s: Text): nat {
    if s == [] then 0 else 10 * NumberOf(s[..|s| - 1]) + if s[|s| - 1] >= 48 then s[|s| - 1] - 48 else 0
  }

  /** Digits without leading zeros. */
  predicate IsNumeral(s: Text) {
    s != [] && (forall i :: 0 <= i < |s| ==> '0' as int <= s[i] <= '9' as int) && (|s| > 1 ==> s[0] != '0' as int)
  }

  lemma {:induction false} DecimalIs(n: nat)
    ensures IsNumeral(Decimal(n)) && NumberOf(Decimal(n)) == n && (n > 0 ==> Decimal(n)[0] != 48)
  {
    if n < 10 {
      assert NumberOf(Decimal(n)) == 10 * NumberOf([]) + n;
    } else {
      DecimalIs(n / 10);
      var s := Decimal(n);
      assert s[..|s| - 1] == Decimal(n / 10);
    }
  }

  /** `%d` alone: the text between the slots of capture `d`, or for a position capture
      its position in decimal; `%1` of a pattern without captures is the whole match. */
  lemma {:induction false} ExpandCapture(pat: SeqPattern, str: Text, start: nat, st: State, d: nat)
    requires GoodMatch(pat, str, start, st) && |str| < 0x8000_0000 && d <= 9
    ensures d <= CapCounts(pat.items) ==>
              var a, b, r := st.caps[2 * d], st.caps[2 * d + 1], Expand(['%' as int, '0' as int + d], st.caps, str);
              && (a % 2 == 0 ==> a / 2 <= b / 2 <= |str| && r == Ok(str[a / 2..b / 2]))
              && (a % 2 == 1 ==> r.Ok? && IsNumeral(r.value) && NumberOf(r.value) == a / 2)
    ensures CapCounts(pat.items) == 0 ==> Expand(['%' as int, '1' as int], st.caps, str) == Ok(str[start..st.pos])
    ensures Expand(['%' as int, '0' as int], st.caps, str) == Ok(str[start..st.pos])
    ensures d > CapCounts(pat.items) && d != 1 ==> Expand(['%' as int, '0' as int + d], st.caps, str) == Err
  {
    MarkRoundTrip(start);
    MarkRoundTrip(st.pos);
    CaptureAlone(st.caps, str, 0);
    CaptureAlone(st.caps, str, 1);
    CaptureAlone(st.caps, str, d);
    assert Closed(st.caps, 2 * 0, str);
    if d <= CapCounts(pat.items) {
      assert Closed(st.caps, 2 * d, str);
      DecimalIs(st.caps[2 * d] / 2);
    }
  }

  lemma {:induction false} CaptureAlone(caps: Captures, str: Text, d: nat)
    requires d <= 9
    ensures Expand([PERCENT, 48 + d], caps, str) == CapturedString(caps, str, 2 * d)
  {
    var repl: Text := [PERCENT, 48 + d];
    assert repl[2..] == [];
    var r := CapturedString(caps, str, 2 * d);
    if r.Ok? {
      assert r.value + [] == r.value;
    }
  }

  /** A byte that is not a percent sign, or a percent sign and what follows it. */
  predicate IsPiece(p: Text) {
    if |p| == 1 then p[0] != '%' as int else |p| == 2 && p[0] == '%' as int
  }

  function Joined(ps: seq<Text>): Text {
    if ps == [] then [] else ps[0] + Joined(ps[1..])
  }

  /** One piece: `%%` is a percent sign, `%d` what it is alone, and anything else stands
      for itself. */
  function PieceText(p: Text, caps: Captures, str: Text): Result<Text> {
    if |p| == 2 && p[1] == '%' as int then Ok(['%' as int])
    else if |p| == 2 && '0' as int <= p[1] <= '9' as int then Expand(p, caps, str)
    else Ok(p)
  }

  /** The texts of the pieces one behind the other, or the error of one of them. */
  function PieceTexts(ps: seq<Text>, caps: Captures, str: Text): Result<Text> {
    if ps == [] then Ok([])
    else
      var a, b := PieceText(ps[0], caps, str), PieceTexts(ps[1..], caps, str);
      if a.Ok? && b.Ok? then Ok(a.value + b.value) else Err
  }

  /** A replacement string stands for what its pieces stand for, one behind the other; a
      percent sign at the end stands for itself. */
  lemma {:induction false} ExpandPieces(ps: seq<Text>, caps: Captures, str: Text)
    requires forall i :: 0 <= i < |ps| ==> IsPiece(ps[i])
    ensures Expand(Joined(ps), caps, str) == PieceTexts(ps, caps, str)
    ensures Expand(Joined(ps) + ['%' as int], caps, str) == var r := PieceTexts(ps, caps, str); if r.Ok? then Ok(r.value + ['%' as int]) else Err
  {
    if ps == [] {
      var last: Text := [PERCENT];
      assert Joined(ps) + ['%' as int] == last;
      assert last[1..] == [] && Expand(last, caps, str) == Prepend(last, Expand([], caps, str));
      assert last + [] == last && [] + last == last;
    } else {
      ExpandPieces(ps[1..], caps, str);
      ExpandPiece(ps[0], Joined(ps[1..]), caps, str);
      ExpandPiece(ps[0], Joined(ps[1..]) + ['%' as int], caps, str);
      assert Joined(ps) + ['%' as int] == ps[0] + (Joined(ps[1..]) + ['%' as int]);
      var a, b := PieceText(ps[0], caps, str), PieceTexts(ps[1..], caps, str);
      if a.Ok? && b.Ok? {
        assert a.value + (b.value + ['%' as int]) == (a.value + b.value) + ['%' as int];
      }
    }
  }

  lemma {:induction false} ExpandPiece(p: Text, rest: Text, caps: Captures, str: Text)
    requires IsPiece(p)
    ensures Expand(p + rest, caps, str) ==
            var a, b := PieceText(p, caps, str), Expand(rest, caps, str); if a.Ok? && b.Ok? then Ok(a.value + b.value) else Err
  {
    var repl := p + rest;
    assert repl[|p|..] == rest && repl[0] == p[0];
    if |p| == 2 {
      assert repl[1] == p[1];
      if IsDigit(p[1]) {
        assert p == [PERCENT, 48 + (p[1] - 48)];
        CaptureAlone(caps, str, p[1] - 48);
      } else if p[1] != PERCENT {
        assert p == [PERCENT, p[1]];
      }
    } else {
      assert p == [p[0]];
    }
  }
}
