/**
 * The helpers of app/utils/whatsapp_utils.py: the outbound message
 * envelope, reply generation, the text rewrite for WhatsApp formatting, the
 * mapping of the outbound call's outcome, extraction of the inbound message
 * and the structural check of an inbound webhook event.
 */
module WhatsAppUtils {
  import opened PyJson
  import opened Http

  // ===========================================================================
  // get_text_message_input: the outbound envelope
  // ===========================================================================

  /** The `to` field: the configured recipient, or null when RECIPIENT_WAID is unset. */
  function RecipientJson(recipient: Option<string>): Json {
    match recipient
    case None => JNull
    case Some(r) => JStr(r)
  }

  /** The JSON text message the Cloud API is asked to send. */
  function GetTextMessageInput(recipient: Option<string>, text: string): (r: Json)
    ensures r.JObj? && r.fields.Keys == {"messaging_product", "recipient_type", "to", "type", "text"}
    ensures r.fields["messaging_product"] == JStr("whatsapp")
    ensures r.fields["recipient_type"] == JStr("individual")
    ensures r.fields["type"] == JStr("text")
    ensures r.fields["to"] == RecipientJson(recipient)
    ensures r.fields["text"] == JObj(map["preview_url" := JBool(false), "body" := JStr(text)])
  {
    JObj(map[
      "messaging_product" := JStr("whatsapp"),
      "recipient_type" := JStr("individual"),
      "to" := RecipientJson(recipient),
      "type" := JStr("text"),
      "text" := JObj(map["preview_url" := JBool(false), "body" := JStr(text)])])
  }

  /** Reads an envelope back: its `to` value and its text, if it has exactly the envelope's shape. */
  function ReadTextMessage(env: Json): Option<(Json, string)> {
    if env.JObj? && env.fields.Keys == {"messaging_product", "recipient_type", "to", "type", "text"}
      && env.fields["messaging_product"] == JStr("whatsapp")
      && env.fields["recipient_type"] == JStr("individual")
      && env.fields["type"] == JStr("text")
      && (env.fields["to"].JNull? || env.fields["to"].JStr?)
      && env.fields["text"].JObj?
      && env.fields["text"].fields.Keys == {"preview_url", "body"}
      && env.fields["text"].fields["preview_url"] == JBool(false)
      && env.fields["text"].fields["body"].JStr?
    then Some((env.fields["to"], env.fields["text"].fields["body"].s))
    else None
  }

  lemma TextMessageRoundTrip(recipient: Option<string>, text: string)
    ensures ReadTextMessage(GetTextMessageInput(recipient, text)) == Some((RecipientJson(recipient), text))
  {
  }

  /** Everything ReadTextMessage accepts is an envelope GetTextMessageInput builds. */
  lemma ReadTextMessageOnlyEnvelopes(env: Json)
    requires ReadTextMessage(env).Some?
    ensures var (to, text) := ReadTextMessage(env).value;
      env == GetTextMessageInput(if to.JStr? then Some(to.s) else None, text)
  {
    var (to, text) := ReadTextMessage(env).value;
    var built := GetTextMessageInput(if to.JStr? then Some(to.s) else None, text);
    assert env.fields["text"].fields == built.fields["text"].fields;
    assert env.fields == built.fields;
  }

  /** Different recipients or texts give different envelopes. */
  lemma TextMessageInjective(r1: Option<string>, t1: string, r2: Option<string>, t2: string)
    requires GetTextMessageInput(r1, t1) == GetTextMessageInput(r2, t2)
    ensures r1 == r2 && t1 == t2
  {
    TextMessageRoundTrip(r1, t1);
    TextMessageRoundTrip(r2, t2);
  }

  // ===========================================================================
  // generate_response: `response.upper()`, on ASCII letters
  // ===========================================================================

  predicate IsAsciiLower(c: char) { 'a' <= c <= 'z' }

  function UpperChar(c: char): char {
    if IsAsciiLower(c) then (c as int - 32) as char else c
  }

  function Upper(s: string): string {
    if s == [] then [] else [UpperChar(s[0])] + Upper(s[1..])
  }

  predicate NoAsciiLower(s: string) {
    forall i :: 0 <= i < |s| ==> !IsAsciiLower(s[i])
  }

  /** Upper works character by character and keeps the length. */
  lemma {:induction false} UpperAt(s: string)
    ensures |Upper(s)| == |s|
    ensures forall i :: 0 <= i < |s| ==> Upper(s)[i] == UpperChar(s[i])
  {
    if s != [] {
      UpperAt(s[1..]);
    }
  }

  /** No ASCII lower-case letter survives. */
  lemma UpperHasNoLower(s: string)
    ensures NoAsciiLower(Upper(s))
  {
    UpperAt(s);
  }

  /** Text without ASCII lower-case letters is left as it is. */
  lemma {:induction false} UpperFixesNoLower(s: string)
    requires NoAsciiLower(s)
    ensures Upper(s) == s
  {
    if s != [] {
      UpperFixesNoLower(s[1..]);
    }
  }

  /** Upper leaves `s` unchanged exactly when `s` holds no ASCII lower-case letter. */
  lemma UpperFixedPoints(s: string)
    ensures Upper(s) == s <==> NoAsciiLower(s)
  {
    UpperHasNoLower(s);
    if NoAsciiLower(s) {
      UpperFixesNoLower(s);
    }
  }

  lemma UpperIdempotent(s: string)
    ensures Upper(Upper(s)) == Upper(s)
  {
    UpperHasNoLower(s);
    UpperFixesNoLower(Upper(s));
  }

  /** `generate_response(x)`: `x.upper()`, an AttributeError unless `x` is a string. */
  function GenerateResponse(x: Json): (r: PyResult<string>)
    ensures r.Ok? <==> x.JStr?
    ensures r.Raise? ==> r.error == AttributeError
    ensures r.Ok? ==> r.value == Upper(x.s) && |r.value| == |x.s| && NoAsciiLower(r.value)
  {
    match x
    case JStr(s) => UpperAt(s); UpperHasNoLower(s); Ok(Upper(s))
    case _ => Raise(AttributeError)
  }

  // ===========================================================================
  // process_text_for_whatsapp
  // ===========================================================================

  const OpenBracket: char := '\U{3010}'   // 【
  const CloseBracket: char := '\U{3011}'  // 】

  /** Python's `str.isspace`, the characters `str.strip()` removes. */
  predicate IsSpace(c: char) {
    var n := c as int;
    (0x09 <= n <= 0x0D) || (0x1C <= n <= 0x20) || n == 0x85 || n == 0xA0 || n == 0x1680
    || (0x2000 <= n <= 0x200A) || n == 0x2028 || n == 0x2029 || n == 0x202F || n == 0x205F || n == 0x3000
  }

  /** Some character of `s` before position `i` is a newline. */
  predicate NewlineBefore(s: string, i: int) {
    exists j :: 0 <= j < i && j < |s| && s[j] == '\n'
  }

  /**
   * Where `.*?\】` first matches in `s`: the first 】 reached before any
   * newline (`.` does not match a newline).
   */
  function CloseOnLine(s: string): (r: Option<nat>)
    ensures r.Some? ==> r.value < |s| && s[r.value] == CloseBracket
    ensures r.Some? ==> forall i :: 0 <= i < r.value ==> s[i] != '\n' && s[i] != CloseBracket
    ensures r.None? ==> forall i :: 0 <= i < |s| && s[i] == CloseBracket ==> NewlineBefore(s, i)
  {
    if s == [] then None
    else if s[0] == CloseBracket then Some(0)
    else if s[0] == '\n' then None
    else match CloseOnLine(s[1..])
      case None => None
      case Some(k) => Some(k + 1)
  }

  /**
   * `re.sub(r"\【.*?\】", "", s)`: scanning left to right, each 【 that has a 】
   * later on its line is deleted up to and including the first such 】.
   */
  function RemoveBracketSpans(s: string): (r: string)
    ensures |r| <= |s|
    decreases |s|
  {
    if s == [] then []
    else if s[0] == OpenBracket && CloseOnLine(s[1..]).Some? then
      RemoveBracketSpans(s[CloseOnLine(s[1..]).value + 2..])
    else [s[0]] + RemoveBracketSpans(s[1..])
  }

  /** No 【 is followed by a 】 on the same line. */
  predicate NoBracketSpan(s: string) {
    forall i :: 0 <= i < |s| && s[i] == OpenBracket ==> CloseOnLine(s[i + 1..]).None?
  }

  /** Removing spans never brings a 】 onto a line segment that had none. */
  lemma {:induction false} RemovalKeepsLineClear(u: string)
    requires CloseOnLine(u).None?
    ensures CloseOnLine(RemoveBracketSpans(u)).None?
    decreases |u|
  {
    if u != [] {
      if u[0] != '\n' {
        assert CloseOnLine(u[1..]).None?;
        RemovalKeepsLineClear(u[1..]);
        var r := RemoveBracketSpans(u[1..]);
        assert RemoveBracketSpans(u) == [u[0]] + r;
        assert ([u[0]] + r)[1..] == r;
      }
    }
  }

  lemma NoBracketSpanCons(c: char, r: string)
    requires NoBracketSpan(r)
    requires c == OpenBracket ==> CloseOnLine(r).None?
    ensures NoBracketSpan([c] + r)
  {
    var t := [c] + r;
    forall i | 0 <= i < |t| && t[i] == OpenBracket
      ensures CloseOnLine(t[i + 1..]).None?
    {
      if i > 0 {
        assert t[i + 1..] == r[i..];
        assert r[i - 1] == OpenBracket;
      } else {
        assert t[1..] == r;
      }
    }
  }

  /** After the first pass no span is left to delete. */
  lemma {:induction false} RemovedHasNoSpan(s: string)
    ensures NoBracketSpan(RemoveBracketSpans(s))
    decreases |s|
  {
    if s != [] {
      if s[0] == OpenBracket && CloseOnLine(s[1..]).Some? {
        RemovedHasNoSpan(s[CloseOnLine(s[1..]).value + 2..]);
      } else {
        RemovedHasNoSpan(s[1..]);
        if s[0] == OpenBracket {
          RemovalKeepsLineClear(s[1..]);
        }
        NoBracketSpanCons(s[0], RemoveBracketSpans(s[1..]));
      }
    }
  }

  /** Text with no span is left unchanged by the first pass. */
  lemma {:induction false} RemoveSpansFixes(s: string)
    requires NoBracketSpan(s)
    ensures RemoveBracketSpans(s) == s
    decreases |s|
  {
    if s != [] {
      assert s[0] == OpenBracket ==> CloseOnLine(s[1..]).None?;
      forall i | 0 <= i < |s[1..]| && s[1..][i] == OpenBracket
        ensures CloseOnLine(s[1..][i + 1..]).None?
      {
        assert s[1..][i + 1..] == s[i + 2..];
        assert s[i + 1] == OpenBracket;
      }
      RemoveSpansFixes(s[1..]);
    }
  }

  lemma RemoveSpansIdempotent(s: string)
    ensures RemoveBracketSpans(RemoveBracketSpans(s)) == RemoveBracketSpans(s)
  {
    RemovedHasNoSpan(s);
    RemoveSpansFixes(RemoveBracketSpans(s));
  }

  /** A 】 right after a run of one line without 】 is where that run's search stops. */
  lemma {:induction false} CloseAfter(y: string, rest: string)
    requires forall i :: 0 <= i < |y| ==> y[i] != CloseBracket && y[i] != '\n'
    ensures CloseOnLine(y + [CloseBracket] + rest) == Some(|y|)
  {
    if y != [] {
      assert (y + [CloseBracket] + rest)[1..] == y[1..] + [CloseBracket] + rest;
      CloseAfter(y[1..], rest);
    }
  }

  /**
   * A 【 closed by a 】 later on its line is deleted together with everything
   * up to the first such 】, and the scan goes on after it.
   */
  lemma SpanDeleted(y: string, rest: string)
    requires forall i :: 0 <= i < |y| ==> y[i] != CloseBracket && y[i] != '\n'
    ensures RemoveBracketSpans([OpenBracket] + y + [CloseBracket] + rest) == RemoveBracketSpans(rest)
  {
    var s := [OpenBracket] + y + [CloseBracket] + rest;
    assert s[1..] == y + [CloseBracket] + rest;
    CloseAfter(y, rest);
    assert s[|y| + 2..] == rest;
  }

  /** A 【 with no 】 after it on its line is kept, and the scan goes on after it. */
  lemma UnclosedOpenKept(t: string)
    requires forall i :: 0 <= i < |t| && t[i] == CloseBracket ==> NewlineBefore(t, i)
    ensures RemoveBracketSpans([OpenBracket] + t) == [OpenBracket] + RemoveBracketSpans(t)
  {
    assert ([OpenBracket] + t)[1..] == t;
  }

  /** Text without a 【 passes through the first pass unchanged, whatever follows it. */
  lemma {:induction false} PlainTextKept(x: string, rest: string)
    requires forall i :: 0 <= i < |x| ==> x[i] != OpenBracket
    ensures RemoveBracketSpans(x + rest) == x + RemoveBracketSpans(rest)
  {
    if x != [] {
      assert (x + rest)[0] == x[0];
      assert (x + rest)[1..] == x[1..] + rest;
      PlainTextKept(x[1..], rest);
      assert x == [x[0]] + x[1..];
    } else {
      assert x + rest == rest;
    }
  }

  /** `a` is `b` with some of its characters deleted, the rest kept in order. */
  predicate Subsequence(a: string, b: string)
    decreases |b|
  {
    if b == [] then a == []
    else (a != [] && a[0] == b[0] && Subsequence(a[1..], b[1..])) || Subsequence(a, b[1..])
  }

  lemma {:induction false} SubsequenceOfSuffix(a: string, b: string, j: nat)
    requires j <= |b| && Subsequence(a, b[j..])
    ensures Subsequence(a, b)
    decreases j
  {
    if j > 0 {
      assert b[1..][j - 1..] == b[j..];
      SubsequenceOfSuffix(a, b[1..], j - 1);
    }
  }

  /** The first pass only deletes characters: what is left is kept in order. */
  lemma {:induction false} RemovalDeletesOnly(s: string)
    ensures Subsequence(RemoveBracketSpans(s), s)
    decreases |s|
  {
    if s != [] {
      if s[0] == OpenBracket && CloseOnLine(s[1..]).Some? {
        var k := CloseOnLine(s[1..]).value;
        RemovalDeletesOnly(s[k + 2..]);
        SubsequenceOfSuffix(RemoveBracketSpans(s), s, k + 2);
      } else {
        RemovalDeletesOnly(s[1..]);
        var r := RemoveBracketSpans(s[1..]);
        assert RemoveBracketSpans(s) == [s[0]] + r;
        assert ([s[0]] + r)[1..] == r;
      }
    }
  }

  /** `s[lo..hi]` is all whitespace. */
  predicate SpaceBetween(s: string, lo: int, hi: int) {
    forall k :: lo <= k < hi && 0 <= k < |s| ==> IsSpace(s[k])
  }

  /** The index of the first non-whitespace character of `s` at or after `k`, `|s|` if none. */
  function SkipSpaces(s: string, k: nat): (n: nat)
    requires k <= |s|
    ensures k <= n <= |s| && SpaceBetween(s, k, n)
    ensures n < |s| ==> !IsSpace(s[n])
    decreases |s| - k
  {
    if k < |s| && IsSpace(s[k]) then SkipSpaces(s, k + 1) else k
  }

  /** Where `s[lo..hi]` ends once its trailing whitespace is dropped. */
  function TrimEnd(s: string, lo: nat, hi: nat): (n: nat)
    requires lo <= hi <= |s|
    ensures lo <= n <= hi && SpaceBetween(s, n, hi)
    ensures lo < n ==> !IsSpace(s[n - 1])
    decreases hi - lo
  {
    if lo < hi && IsSpace(s[hi - 1]) then TrimEnd(s, lo, hi - 1) else hi
  }

  /**
   * `s.strip()`: the slice of `s` left once the whitespace at both ends is
   * dropped; everything dropped is whitespace, and what is left neither
   * starts nor ends with it.
   */
  function Strip(s: string): (r: string)
    ensures var lo := SkipSpaces(s, 0);
      var hi := TrimEnd(s, lo, |s|);
      r == s[lo..hi] && SpaceBetween(s, 0, lo) && SpaceBetween(s, hi, |s|)
    ensures r != [] ==> !IsSpace(r[0]) && !IsSpace(r[|r| - 1])
  {
    var lo := SkipSpaces(s, 0);
    s[lo..TrimEnd(s, lo, |s|)]
  }

  /** Stripped text has no whitespace left at either end to strip. */
  lemma StripIdempotent(s: string)
    ensures Strip(Strip(s)) == Strip(s)
  {
    var r := Strip(s);
    if r != [] {
      assert SkipSpaces(r, 0) == 0;
      assert TrimEnd(r, 0, |r|) == |r|;
    }
    assert r[0..|r|] == r;
  }

  /**
   * Where `(.*?)\*\*` first matches in `s`: the first `**` reached before
   * any newline.
   */
  function StarPairOnLine(s: string): (r: Option<nat>)
    ensures r.Some? ==> r.value + 2 <= |s| && s[r.value] == '*' && s[r.value + 1] == '*'
    ensures r.Some? ==> forall i :: 0 <= i < r.value ==> s[i] != '\n'
    ensures r.Some? ==> forall i :: 0 <= i < r.value ==> !(s[i] == '*' && s[i + 1] == '*')
    ensures r.None? ==> forall i :: 0 <= i < |s| - 1 && s[i] == '*' && s[i + 1] == '*' ==> NewlineBefore(s, i)
  {
    if |s| < 2 then None
    else if s[0] == '*' && s[1] == '*' then Some(0)
    else if s[0] == '\n' then None
    else match StarPairOnLine(s[1..])
      case None => None
      case Some(k) => Some(k + 1)
  }

  /**
   * `re.sub(r"\*\*(.*?)\*\*", r"*\1*", s)`: each `**x**` (x on one line, the
   * shortest such) becomes `*x*`, scanning left to right.
   */
  function CollapseBold(s: string): (r: string)
    ensures |r| <= |s|
    ensures s == [] <==> r == []
    ensures s != [] ==> r[0] == s[0] && r[|r| - 1] == s[|s| - 1]
    decreases |s|
  {
    if |s| >= 2 && s[0] == '*' && s[1] == '*' && StarPairOnLine(s[2..]).Some? then
      var k := StarPairOnLine(s[2..]).value;
      "*" + s[2..k + 2] + "*" + CollapseBold(s[k + 4..])
    else if s == [] then []
    else [s[0]] + CollapseBold(s[1..])
  }

  /** The characters of `s` other than `*`, in order. */
  function Unstarred(s: string): string {
    if s == [] then [] else (if s[0] == '*' then [] else [s[0]]) + Unstarred(s[1..])
  }

  lemma {:induction false} UnstarredAppend(a: string, b: string)
    ensures Unstarred(a + b) == Unstarred(a) + Unstarred(b)
  {
    if a != [] {
      var head := if a[0] == '*' then [] else [a[0]];
      assert (a + b)[0] == a[0];
      assert (a + b)[1..] == a[1..] + b;
      UnstarredAppend(a[1..], b);
      calc {
        Unstarred(a + b);
        head + Unstarred(a[1..] + b);
        head + (Unstarred(a[1..]) + Unstarred(b));
        (head + Unstarred(a[1..])) + Unstarred(b);
        Unstarred(a) + Unstarred(b);
      }
    } else {
      assert a + b == b;
    }
  }

  /** Asterisks around a text add nothing once asterisks are removed. */
  lemma UnstarredWrapped(x: string, y: string)
    ensures Unstarred("*" + x + "*" + y) == Unstarred(x) + Unstarred(y)
    ensures Unstarred("**" + x + "**" + y) == Unstarred(x) + Unstarred(y)
  {
    assert Unstarred("*") == [] && Unstarred("**") == [];
    UnstarredAppend("*" + x + "*", y);
    UnstarredAppend("*" + x, "*");
    UnstarredAppend("*", x);
    UnstarredAppend("**" + x + "**", y);
    UnstarredAppend("**" + x, "**");
    UnstarredAppend("**", x);
  }

  /** Where the rewrite finds `**x**`, the text is `**`, x, `**` and the rest. */
  lemma PairShape(s: string, k: nat)
    requires |s| >= 2 && s[0] == '*' && s[1] == '*' && StarPairOnLine(s[2..]) == Some(k)
    ensures s == "**" + s[2..k + 2] + "**" + s[k + 4..]
  {
    assert s[2..][k] == s[k + 2] && s[2..][k + 1] == s[k + 3];
  }

  /** One `**x**` rewrite step deletes asterisks only, given that the rest's rewrite does. */
  lemma PairDropsOnlyStars(s: string, k: nat)
    requires |s| >= 2 && s[0] == '*' && s[1] == '*' && StarPairOnLine(s[2..]) == Some(k)
    requires Unstarred(CollapseBold(s[k + 4..])) == Unstarred(s[k + 4..])
    ensures Unstarred(CollapseBold(s)) == Unstarred(s)
  {
    var x, rest := s[2..k + 2], s[k + 4..];
    var y := CollapseBold(rest);
    assert CollapseBold(s) == "*" + x + "*" + y;
    PairShape(s, k);
    UnstarredWrapped(x, y);
    UnstarredWrapped(x, rest);
  }

  /** The second pass only ever deletes asterisks. */
  lemma {:induction false} CollapseBoldDropsOnlyStars(s: string)
    ensures Unstarred(CollapseBold(s)) == Unstarred(s)
    decreases |s|
  {
    if |s| >= 2 && s[0] == '*' && s[1] == '*' && StarPairOnLine(s[2..]).Some? {
      var k := StarPairOnLine(s[2..]).value;
      CollapseBoldDropsOnlyStars(s[k + 4..]);
      PairDropsOnlyStars(s, k);
    } else if s != [] {
      CollapseBoldDropsOnlyStars(s[1..]);
      UnstarredAppend([s[0]], CollapseBold(s[1..]));
      UnstarredAppend([s[0]], s[1..]);
      assert s == [s[0]] + s[1..];
    }
  }

  predicate NoDoubleStar(s: string) {
    forall i :: 0 <= i < |s| - 1 ==> !(s[i] == '*' && s[i + 1] == '*')
  }

  /** A run of one line with no `**` that does not end in `*` is searched past to the `**` after it. */
  lemma {:induction false} StarPairAfter(x: string, rest: string)
    requires NoDoubleStar(x) && (x == [] || x[|x| - 1] != '*')
    requires forall i :: 0 <= i < |x| ==> x[i] != '\n'
    ensures StarPairOnLine(x + "**" + rest) == Some(|x|)
  {
    if x != [] {
      var s := x + "**" + rest;
      assert s[0] == x[0] && s[1] == (if |x| >= 2 then x[1] else '*');
      assert s[1..] == x[1..] + "**" + rest;
      forall i | 0 <= i < |x[1..]| - 1
        ensures !(x[1..][i] == '*' && x[1..][i + 1] == '*')
      {
        assert x[1..][i] == x[i + 1] && x[1..][i + 1] == x[i + 2];
      }
      StarPairAfter(x[1..], rest);
    }
  }

  /**
   * `**x**` becomes `*x*` when x is one line with no `**` and no trailing `*`
   * (the shortest match, which may hold single asterisks).
   */
  lemma CollapseBoldRewrites(x: string, rest: string)
    requires NoDoubleStar(x) && (x == [] || x[|x| - 1] != '*')
    requires forall i :: 0 <= i < |x| ==> x[i] != '\n'
    ensures CollapseBold("**" + x + "**" + rest) == "*" + x + "*" + CollapseBold(rest)
  {
    StarPairAfter(x, rest);
    PairRewritten(x, rest);
  }

  /** Where the search after an opening `**` stops right after x, `**x**` is rewritten to `*x*`. */
  lemma PairRewritten(x: string, rest: string)
    requires StarPairOnLine(x + "**" + rest) == Some(|x|)
    ensures CollapseBold("**" + x + "**" + rest) == "*" + x + "*" + CollapseBold(rest)
  {
    var t := x + "**" + rest;
    var s := "**" + t;
    assert s == "**" + x + "**" + rest;
    assert s[2..] == t;
    assert s[2..|x| + 2] == x && s[|x| + 4..] == rest;
  }

  /** A `**` with no later `**` on its line is kept as it is, and the scan goes on after it. */
  lemma UnmatchedPairKept(t: string)
    requires PairsAfterNewline(t)
    ensures CollapseBold("**" + t) == "**" + CollapseBold(t)
  {
    NoPairOnLine(t);
    if t != [] && t[0] == '*' {
      PairsAfterNewlineTail(t);
      NoPairOnLine(t[1..]);
    }
    OpeningKept(t);
  }

  /** The two asterisks of a `**` that opens no pair are each kept in turn. */
  lemma OpeningKept(t: string)
    requires StarPairOnLine(t).None?
    requires t != [] && t[0] == '*' ==> StarPairOnLine(t[1..]).None?
    ensures CollapseBold("**" + t) == "**" + CollapseBold(t)
  {
    var u := ['*'] + t;
    assert "**" + t == ['*'] + u;
    assert u[1..] == t;
    HeadKept('*', t);
    HeadKept('*', u);
    StarStar(CollapseBold(t));
  }

  lemma StarStar(r: string)
    ensures ['*'] + (['*'] + r) == "**" + r
  {
  }

  /** Where no pair starts, the second pass keeps the first character and goes on. */
  lemma HeadKept(c: char, t: string)
    requires c == '*' && t != [] && t[0] == '*' ==> StarPairOnLine(t[1..]).None?
    ensures CollapseBold([c] + t) == [c] + CollapseBold(t)
  {
    var s := [c] + t;
    assert s[0] == c && s[1..] == t;
    assert |s| >= 2 ==> s[1] == t[0] && s[2..] == t[1..];
  }

  /** Every `**` of `t` has a newline before it. */
  predicate PairsAfterNewline(t: string) {
    forall i :: 0 <= i < |t| - 1 && t[i] == '*' && t[i + 1] == '*' ==> NewlineBefore(t, i)
  }

  lemma PairsAfterNewlineTail(t: string)
    requires t != [] && t[0] != '\n' && PairsAfterNewline(t)
    ensures PairsAfterNewline(t[1..])
  {
    var v := t[1..];
    forall i | 0 <= i < |v| - 1 && v[i] == '*' && v[i + 1] == '*'
      ensures NewlineBefore(v, i)
    {
      assert t[i + 1] == v[i] && t[i + 2] == v[i + 1];
      var j :| 0 <= j < i + 1 && j < |t| && t[j] == '\n';
      assert v[j - 1] == '\n';
    }
  }

  /** A text whose every `**` comes after a newline on its line has no pair to rewrite at its start. */
  lemma NoPairOnLine(t: string)
    requires PairsAfterNewline(t)
    ensures StarPairOnLine(t).None?
  {
  }

  /** No `**` is followed by another `**` on its line: nothing for the second pass to match. */
  predicate NoBoldPair(s: string) {
    forall i :: 0 <= i < |s| - 1 && s[i] == '*' && s[i + 1] == '*' ==> StarPairOnLine(s[i + 2..]).None?
  }

  lemma NoBoldPairTail(s: string)
    requires s != [] && NoBoldPair(s)
    ensures NoBoldPair(s[1..])
  {
    var t := s[1..];
    forall i | 0 <= i < |t| - 1 && t[i] == '*' && t[i + 1] == '*'
      ensures StarPairOnLine(t[i + 2..]).None?
    {
      assert t[i] == s[i + 1] && t[i + 1] == s[i + 2];
      assert t[i + 2..] == s[i + 3..];
    }
  }

  /** Text in which no `**` has a partner on its line is left unchanged by the second pass. */
  lemma {:induction false} CollapseBoldFixes(s: string)
    requires NoBoldPair(s)
    ensures CollapseBold(s) == s
    decreases |s|
  {
    if s != [] {
      assert |s| >= 2 && s[0] == '*' && s[1] == '*' ==> StarPairOnLine(s[2..]).None?;
      NoBoldPairTail(s);
      CollapseBoldFixes(s[1..]);
    }
  }

  /** In particular, text without `**` is left unchanged. */
  lemma NoDoubleStarFixed(s: string)
    requires NoDoubleStar(s)
    ensures CollapseBold(s) == s
  {
    CollapseBoldFixes(s);
  }

  /** `process_text_for_whatsapp(text)` */
  function ProcessTextForWhatsApp(text: string): (r: string)
    ensures |r| <= |text|
    ensures r != [] ==> !IsSpace(r[0]) && !IsSpace(r[|r| - 1])
  {
    CollapseBold(Strip(RemoveBracketSpans(text)))
  }

  /** The first two steps leave no 【…】 span on any line. */
  lemma StrippedHasNoSpan(text: string)
    ensures NoBracketSpan(Strip(RemoveBracketSpans(text)))
  {
    RemovedHasNoSpan(text);
    StripKeepsNoSpan(RemoveBracketSpans(text));
  }

  lemma StripKeepsNoSpan(s: string)
    requires NoBracketSpan(s)
    ensures NoBracketSpan(Strip(s))
  {
    var lo := SkipSpaces(s, 0);
    NoBracketSpanSlice(s, lo, TrimEnd(s, lo, |s|));
  }

  /** A slice of text without spans has none either. */
  lemma NoBracketSpanSlice(s: string, i: nat, j: nat)
    requires i <= j <= |s| && NoBracketSpan(s)
    ensures NoBracketSpan(s[i..j])
  {
    var r := s[i..j];
    forall p | 0 <= p < |r| && r[p] == OpenBracket
      ensures CloseOnLine(r[p + 1..]).None?
    {
      assert s[i + p] == OpenBracket;
      assert r[p + 1..] == s[i + p + 1..][..j - i - p - 1];
      ClearPrefix(s[i + p + 1..], j - i - p - 1);
    }
  }

  /** A prefix of a line segment without 】 has none either. */
  lemma {:induction false} ClearPrefix(u: string, n: nat)
    requires n <= |u| && CloseOnLine(u).None?
    ensures CloseOnLine(u[..n]).None?
  {
    if n > 0 && u[0] != '\n' {
      assert u[..n][1..] == u[1..][..n - 1];
      ClearPrefix(u[1..], n - 1);
    }
  }

  // ===========================================================================
  // send_message: the outbound call and the outcomes it maps
  // ===========================================================================

  /** What the transport did with the POST (the network itself is not modelled). */
  datatype Transport =
    | TimedOut                               // requests.Timeout (read or connect)
    | ConnectionFailed                       // requests.ConnectionError
    | Responded(status: int, text: string)   // a response arrived
    | RequestFailed                          // any other requests.RequestException

  /** What `send_message` returns: the response object, or a `(jsonify(...), code)` pair. */
  datatype SendResult = Delivered(status: int, text: string) | Failed(response: Response)

  /** A `Sent` pairs the request that was issued with how it ended. */
  datatype Sent = Sent(post: OutboundPost, result: SendResult)

  /** Python's `str()` of a setting that may be unset. */
  function PyStr(s: Option<string>): string {
    match s
    case None => "None"
    case Some(v) => v
  }

  function MessagesUrl(cfg: Config): string {
    "https://graph.facebook.com/" + PyStr(cfg.version) + "/" + PyStr(cfg.phoneNumberId) + "/messages"
  }

  /** `response.raise_for_status()` raises for client (4xx) and server (5xx) errors. */
  predicate RaisesForStatus(status: int) { 400 <= status < 600 }

  /** The error ladder of `send_message`, in the order of its `except` clauses. */
  function SendOutcome(outcome: Transport): (r: SendResult)
    ensures r.Failed? ==> r.response.status == 408 || r.response.status == 500
    ensures r.Failed? && r.response.status == 408 <==> outcome.TimedOut?
    ensures r.Delivered? <==> outcome.Responded? && !RaisesForStatus(outcome.status)
    ensures r.Delivered? ==> r.status == outcome.status && r.text == outcome.text
  {
    match outcome
    case TimedOut => Failed(ErrorResponse("Request timed out", 408))
    case ConnectionFailed => Failed(ErrorResponse("Connection error", 500))
    case Responded(status, text) =>
      if RaisesForStatus(status) then Failed(ErrorResponse("HTTP error from WhatsApp API", 500))
      else Delivered(status, text)
    case RequestFailed => Failed(ErrorResponse("Failed to send message", 500))
  }

  /** `send_message(data)`: POST `data` to the messages endpoint with the bearer token, 10 s timeout. */
  function SendMessage(cfg: Config, data: Json, outcome: Transport): (r: Sent)
    ensures r.post.url == MessagesUrl(cfg) && r.post.data == data && r.post.timeout == 10
    ensures r.post.headers.Keys == {"Content-type", "Authorization"}
    ensures r.post.headers["Content-type"] == "application/json"
    ensures r.post.headers["Authorization"] == "Bearer " + PyStr(cfg.accessToken)
    ensures r.result == SendOutcome(outcome)
  {
    var headers := map["Content-type" := "application/json", "Authorization" := "Bearer " + PyStr(cfg.accessToken)];
    Sent(OutboundPost(MessagesUrl(cfg), headers, data, 10), SendOutcome(outcome))
  }

  // ===========================================================================
  // process_whatsapp_message: extraction and the reply flow
  // ===========================================================================

  /** The fields read from an event; Python does not check their types. */
  datatype InboundMessage = InboundMessage(waId: Json, name: Json, messageId: Json, timestamp: Json, text: Json)

  /** `body["entry"][0]["changes"][0]["value"]` */
  function ChangeValue(body: Json): PyResult<Json> {
    var entry :- Item(body, "entry");
    var entry0 :- First(entry);
    var changes :- Item(entry0, "changes");
    var change0 :- First(changes);
    Item(change0, "value")
  }

  /** The extraction at the head of `process_whatsapp_message`, in the order it reads. */
  function ExtractMessage(body: Json): PyResult<InboundMessage> {
    var value :- ChangeValue(body);
    var contacts :- Item(value, "contacts");
    var contact :- First(contacts);
    var waId :- Item(contact, "wa_id");
    var profile :- Item(contact, "profile");
    var name :- Item(profile, "name");
    var messages :- Item(value, "messages");
    var message :- First(messages);
    var messageId :- GetOr(message, "id", JStr("unknown"));
    var timestamp :- GetOr(message, "timestamp", JStr("unknown"));
    var text :- Item(message, "text");
    var textBody :- Item(text, "body");
    Ok(InboundMessage(waId, name, messageId, timestamp, textBody))
  }

  /** The shape extraction needs: every link present, every list's first element a dict. */
  predicate Extractable(body: Json) {
    HasKey(body, "entry") && FirstIsDict(Lookup(body, "entry"))
    && var entry0 := Lookup(body, "entry").items[0];
    HasKey(entry0, "changes") && FirstIsDict(Lookup(entry0, "changes"))
    && var change0 := Lookup(entry0, "changes").items[0];
    HasKey(change0, "value")
    && var value := Lookup(change0, "value");
    HasKey(value, "contacts") && FirstIsDict(Lookup(value, "contacts"))
    && var contact := Lookup(value, "contacts").items[0];
    HasKey(contact, "wa_id") && HasKey(contact, "profile") && HasKey(Lookup(contact, "profile"), "name")
    && HasKey(value, "messages") && FirstIsDict(Lookup(value, "messages"))
    && var message := Lookup(value, "messages").items[0];
    HasKey(message, "text") && HasKey(Lookup(message, "text"), "body")
  }

  /** The message an extractable event carries, id and timestamp defaulting to "unknown". */
  function ExpectedMessage(body: Json): InboundMessage
    requires Extractable(body)
  {
    var value := Lookup(Lookup(Lookup(body, "entry").items[0], "changes").items[0], "value");
    var contact := Lookup(value, "contacts").items[0];
    var message := Lookup(value, "messages").items[0];
    InboundMessage(
      Lookup(contact, "wa_id"),
      Lookup(Lookup(contact, "profile"), "name"),
      if "id" in message.fields then message.fields["id"] else JStr("unknown"),
      if "timestamp" in message.fields then message.fields["timestamp"] else JStr("unknown"),
      Lookup(Lookup(message, "text"), "body"))
  }

  /** Extraction succeeds exactly on extractable events, and then reads what ExpectedMessage says. */
  lemma ExtractMessageSpec(body: Json)
    ensures ExtractMessage(body).Ok? <==> Extractable(body)
    ensures ExtractMessage(body).Ok? ==> ExtractMessage(body).value == ExpectedMessage(body)
  {
    if ChangeValue(body).Ok? {
      var entry0 := Lookup(body, "entry");
      assert First(entry0).Ok? ==> entry0.JArr? || entry0.JStr?;
    }
  }

  /** What `process_whatsapp_message` did: the message it read and the send it made. */
  datatype Processed = Processed(message: InboundMessage, reply: string, sent: Sent)

  /**
   * `process_whatsapp_message(body)`: extract, upper-case the text, address the
   * reply to RECIPIENT_WAID and send it. Any exception (KeyError included) is
   * logged and raised again unchanged.
   */
  function ProcessWhatsAppMessage(body: Json, cfg: Config, outcome: Transport): PyResult<Processed> {
    var message :- ExtractMessage(body);
    var reply :- GenerateResponse(message.text);
    var data := GetTextMessageInput(cfg.recipientWaid, reply);
    Ok(Processed(message, reply, SendMessage(cfg, data, outcome)))
  }

  /** An extraction error comes out of processing as the very same exception. */
  lemma ProcessReraises(body: Json, cfg: Config, outcome: Transport)
    ensures ExtractMessage(body).Raise? ==> ProcessWhatsAppMessage(body, cfg, outcome) == Raise(ExtractMessage(body).error)
    ensures ExtractMessage(body).Ok? && !ExtractMessage(body).value.text.JStr? ==>
      ProcessWhatsAppMessage(body, cfg, outcome) == Raise(AttributeError)
  {
  }

  /**
   * Processing succeeds exactly when the event is extractable with a string
   * text; then the reply is the upper-cased text, sent to the configured
   * recipient (not to the sender), whatever the transport does.
   */
  lemma ProcessSendsReply(body: Json, cfg: Config, outcome: Transport)
    ensures ProcessWhatsAppMessage(body, cfg, outcome).Ok? <==> Extractable(body) && ExpectedMessage(body).text.JStr?
    ensures ProcessWhatsAppMessage(body, cfg, outcome).Ok? ==>
      var p := ProcessWhatsAppMessage(body, cfg, outcome).value;
      p.reply == Upper(ExpectedMessage(body).text.s)
      && p.sent.post.url == MessagesUrl(cfg)
      && ReadTextMessage(p.sent.post.data) == Some((RecipientJson(cfg.recipientWaid), p.reply))
      && p.sent.result == SendOutcome(outcome)
  {
    ExtractMessageSpec(body);
    if ProcessWhatsAppMessage(body, cfg, outcome).Ok? {
      var p := ProcessWhatsAppMessage(body, cfg, outcome).value;
      TextMessageRoundTrip(cfg.recipientWaid, p.reply);
    }
  }

  // ===========================================================================
  // is_valid_whatsapp_message
  // ===========================================================================

  /**
   * The walk from `body.get("entry")` to `messages[0]`, stopping at the first
   * falsy link; a link of the wrong type raises as Python does.
   */
  function EntryWalk(body: Json): PyResult<bool> {
    var entry :- Get(body, "entry");
    if !Truthy(entry) then Ok(false) else
    var entryList :- Item(body, "entry");
    var entry0 :- First(entryList);
    var changes :- Get(entry0, "changes");
    if !Truthy(changes) then Ok(false) else
    var changesList :- Item(entry0, "changes");
    var change0 :- First(changesList);
    var value :- Get(change0, "value");
    if !Truthy(value) then Ok(false) else
    var valueDict :- Item(change0, "value");
    var messages :- Get(valueDict, "messages");
    if !Truthy(messages) then Ok(false) else
    var messagesList :- Item(valueDict, "messages");
    var message0 :- First(messagesList);
    Ok(Truthy(message0))
  }

  /**
   * `is_valid_whatsapp_message(body)`, as the truth value `if` takes of it.
   * The `checks` list built for logging is evaluated first: it reads
   * `object`, then walks the same path as the `and` chain but without the
   * `object` guard, so its lookups raise even when `object` is falsy. The
   * chain itself then finds the path well typed and is truthy when `object`
   * is and the walk is.
   */
  function IsValidWhatsAppMessage(body: Json): PyResult<bool> {
    var objectField :- Get(body, "object");
    var walked :- EntryWalk(body);
    Ok(Truthy(objectField) && walked)
  }

  /**
   * The message path, as a pattern: `object` truthy, `entry[0]` and
   * `changes[0]` dicts, `value` a non-empty dict, and `messages` a list whose
   * first element is truthy (or a non-empty string, whose first character is).
   */
  predicate MessagePathPresent(body: Json) {
    body.JObj? && Truthy(Lookup(body, "object"))
    && FirstIsDict(Lookup(body, "entry"))
    && var entry0 := Lookup(body, "entry").items[0];
    FirstIsDict(Lookup(entry0, "changes"))
    && var value := Lookup(Lookup(entry0, "changes").items[0], "value");
    value.JObj? && Truthy(value)
    && var messages := Lookup(value, "messages");
    (messages.JArr? && messages.items != [] && Truthy(messages.items[0]))
    || (messages.JStr? && messages.s != [])
  }

  /**
   * The events on which the check raises nothing: a dict body in which every
   * truthy link the walk from `entry` reaches has the container type the
   * next step indexes (`object` plays no part).
   */
  predicate PathWellTyped(body: Json) {
    body.JObj?
    && var entry := Lookup(body, "entry");
    (Truthy(entry) ==>
      FirstIsDict(entry)
      && var changes := Lookup(entry.items[0], "changes");
      (Truthy(changes) ==>
        FirstIsDict(changes)
        && var value := Lookup(changes.items[0], "value");
        (Truthy(value) ==>
          value.JObj?
          && var messages := Lookup(value, "messages");
          (Truthy(messages) ==> messages.JArr? || messages.JStr?))))
  }

  /** The check is truthy exactly on events that have the message path. */
  lemma ValidIffMessagePath(body: Json)
    ensures IsValidWhatsAppMessage(body) == Ok(true) <==> MessagePathPresent(body)
  {
    if body.JObj? && Truthy(Lookup(body, "entry")) {
      var entry := Lookup(body, "entry");
      if First(entry).Ok? && First(entry).value.JObj? {
        var entry0 := First(entry).value;
        assert entry.JArr?;
        var changes := Lookup(entry0, "changes");
        if Truthy(changes) && First(changes).Ok? && First(changes).value.JObj? {
          assert changes.JArr?;
        }
      }
    }
  }

  /** The check raises nothing exactly on well-typed events. */
  lemma ValidRaisesIffIllTyped(body: Json)
    ensures IsValidWhatsAppMessage(body).Ok? <==> PathWellTyped(body)
  {
    if body.JObj? && Truthy(Lookup(body, "entry")) {
      var entry := Lookup(body, "entry");
      if First(entry).Ok? && First(entry).value.JObj? {
        var entry0 := First(entry).value;
        assert entry.JArr?;
        var changes := Lookup(entry0, "changes");
        if Truthy(changes) && First(changes).Ok? && First(changes).value.JObj? {
          assert changes.JArr?;
        }
      }
    }
  }

  /** A missing or empty link makes a well-typed event invalid (false, not an exception). */
  lemma MissingLinkIsFalse(body: Json)
    requires PathWellTyped(body) && !MessagePathPresent(body)
    ensures IsValidWhatsAppMessage(body) == Ok(false)
  {
    ValidIffMessagePath(body);
    ValidRaisesIffIllTyped(body);
  }

  /**
   * The logging walk runs before the `object` guard is consulted: an event
   * with no `object` whose `messages` is a dict has no message path, yet the
   * check raises KeyError on `messages[0]` rather than answering false.
   */
  lemma ObjectlessEventCanRaise()
    ensures var value := JObj(map["messages" := JObj(map["id" := JStr("x")])]);
      var body := JObj(map["entry" := JArr([JObj(map["changes" := JArr([JObj(map["value" := value])])])])]);
      !MessagePathPresent(body) && IsValidWhatsAppMessage(body) == Raise(KeyError)
  {
    var messages := JObj(map["id" := JStr("x")]);
    var value := JObj(map["messages" := messages]);
    var change0 := JObj(map["value" := value]);
    var entry0 := JObj(map["changes" := JArr([change0])]);
    var body := JObj(map["entry" := JArr([entry0])]);
    assert "object" !in body.fields && "id" in messages.fields;
    assert Lookup(value, "messages") == messages;
  }

  /** Passing the check does not make an event extractable: `contacts` is never looked at. */
  lemma ValidYetNotExtractable()
    ensures var message := JObj(map["text" := JObj(map["body" := JStr("hi")])]);
      var value := JObj(map["messages" := JArr([message])]);
      var body := JObj(map[
        "object" := JStr("whatsapp_business_account"),
        "entry" := JArr([JObj(map["changes" := JArr([JObj(map["value" := value])])])])]);
      IsValidWhatsAppMessage(body) == Ok(true) && ExtractMessage(body) == Raise(KeyError)
  {
    var message := JObj(map["text" := JObj(map["body" := JStr("hi")])]);
    var value := JObj(map["messages" := JArr([message])]);
    var change0 := JObj(map["value" := value]);
    var entry0 := JObj(map["changes" := JArr([change0])]);
    var body := JObj(map["object" := JStr("whatsapp_business_account"), "entry" := JArr([entry0])]);
    assert "text" in message.fields && "messages" in value.fields;
    assert ChangeValue(body) == Ok(value);
    assert "contacts" !in value.fields;
    assert IsValidWhatsAppMessage(body) == Ok(true);
  }
}
