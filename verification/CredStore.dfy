/**
 The credential store of a service (src/gp_creds.c): expansion of %U and %u in its
 values, done in place on the string, and the assembly of the store in an array with
 room for two more entries than are configured.
 */
module CredStore {
  import opened SeqLib

  // ----- templates -----

  function IndexFrom(s: string, c: char, i: nat): (k: nat)
    requires i <= |s|
    ensures i <= k <= |s| && (k < |s| ==> s[k] == c)
    decreases |s| - i
  {
    if i == |s| || s[i] == c then i else IndexFrom(s, c, i + 1)
  }

  /**
   The expansion a template stands for: %U the uid, %u the user, %% a percent sign; substituted text is not
   looked at again.
   */
  function Expand(s: string, uid: string, user: Option<string>): (r: Option<string>)
    decreases |s|
  {
    var k := IndexFrom(s, '%', 0);
    if k == |s| then Some(s)
    else if k + 1 == |s| || Text(s[k + 1], uid, user).None? then None
    else Behind(s[..k] + Text(s[k + 1], uid, user).value, Expand(s[k + 2..], uid, user))
  }

  /** What a directive stands for. */
  function Text(c: char, uid: string, user: Option<string>): Option<string> {
    if c == '%' then Some("%") else if c == 'U' then Some(uid) else if c == 'u' then user else None
  }

  function Behind(done: string, rest: Option<string>): Option<string> {
    if rest.None? then None else Some(done + rest.value)
  }

  /** What get_formatted_string ends with: a string, an error, or an access outside its string. */
  datatype Formatted = Formatted(s: string) | Refused | Undefined

  function Result(r: Option<string>): Formatted { if r.Some? then Formatted(r.value) else Refused }

  /**
   The second percent sign of a doubled one at `k` is dropped by moving `k` bytes down, whatever follows it:
   right when exactly `k` bytes follow, the terminator included; fewer leave a byte twice; more are outside.
   */
  function Collapsed(str: string, k: nat): string
    requires 2 * k + 1 <= |str| && k + 1 < |str|
  {
    if 2 * k + 1 == |str| then str[..k + 1] + str[k + 2..] else str[..k + 1] + str[k + 2..2 * k + 2] + str[2 * k + 1..]
  }

  /**
   Where the loop stands after one directive: at an end, or at `p` in a string it believes to have `len`
   characters.
   */
  datatype Scan = Done(r: Formatted) | At(str: string, len: int, p: nat)

  /** One turn of the loop. */
  function ScanStep(str: string, len: int, p: nat, uid: string, user: Option<string>): (x: Scan)
    requires p <= |str| && len <= |str|
    ensures x.At? ==> x.p <= |x.str| && x.len <= |x.str| && |x.str| - x.p < |str| - p
  {
    var k := IndexFrom(str, '%', p);
    if k == |str| then Done(Formatted(str))
    else if k + 1 == |str| || Text(str[k + 1], uid, user).None? then Done(Refused)
    else if str[k + 1] == '%' then
      if 2 * k + 1 > |str| then Done(Undefined) else At(Collapsed(str, k), len - 1, k + 1)
    else if len < k + 2 then Done(Undefined)
    else
      var str' := str[..k] + Text(str[k + 1], uid, user).value + str[k + 2..];
      At(str', |str'|, |str'| - (len - (k + 2)))
  }

  function Format(str: string, len: int, p: nat, uid: string, user: Option<string>): Formatted
    requires p <= |str| && len <= |str|
    decreases |str| - p
  {
    match ScanStep(str, len, p, uid, user)
    case Done(r) => r
    case At(str', len', p') => Format(str', len', p', uid, user)
  }

  /** What the loop makes of a template. */
  function FormatOf(s: string, uid: string, user: Option<string>): Formatted { Format(s, |s|, 0, uid, user) }

  method NextDirective(str: string, len: int, p: nat, uid: string, user: Option<string>) returns (x: Scan)
    requires p <= |str| && len <= |str|
    ensures x == ScanStep(str, len, p, uid, user)
  {
    var k := IndexFrom(str, '%', p);
    if k == |str| {
      return Done(Formatted(str));
    }
    var q := k + 1;
    if q == |str| {
      return Done(Refused);
    }
    match str[q] {
      case '%' =>
        var left := q;
        if q + left > |str| + 1 {
          return Done(Undefined);
        }
        return At(Collapsed(str, left - 1), len - 1, q);
      case 'U' =>
        return Substituted(str, len, q + 1, uid);
      case 'u' =>
        if user.None? {
          return Done(Refused);
        }
        return Substituted(str, len, q + 1, user.value);
      case _ =>
        return Done(Refused);
    }
  }

  /** The string printed anew around a directive that ends at `left`. */
  function Substituted(str: string, len: int, left: nat, text: string): Scan
    requires 2 <= left <= |str| && len <= |str|
  {
    var right := len - left;
    if right < 0 then Done(Undefined)
    else
      var str' := str[..left - 2] + text + str[left..];
      At(str', |str'|, |str'| - right)
  }

  /** get_formatted_string; `uid` is the number printed, `user` the name if the lookup finds one. */
  method FormattedString(orig: string, uid: string, user: Option<string>) returns (r: Formatted)
    ensures r == FormatOf(orig, uid, user)
  {
    var str, len, p: nat := orig, |orig| as int, 0;
    while true
      invariant p <= |str| && len <= |str|
      invariant FormatOf(orig, uid, user) == Format(str, len, p, uid, user)
      decreases |str| - p
    {
      var x := NextDirective(str, len, p, uid, user);
      if x.Done? {
        return x.r;
      }
      str, len, p := x.str, x.len, x.p;
    }
  }

  // ----- when the expansion is right -----

  lemma {:induction false} IndexShiftBy(s: string, p: nat, i: nat)
    requires p + i <= |s|
    ensures IndexFrom(s, '%', p + i) == p + IndexFrom(s[p..], '%', i)
    decreases |s| - p - i
  {
    if p + i < |s| && s[p + i] != '%' { IndexShiftBy(s, p, i + 1); }
  }

  lemma {:induction false} IndexShift(s: string, p: nat)
    requires p <= |s|
    ensures IndexFrom(s, '%', p) == p + IndexFrom(s[p..], '%', 0)
  {
    IndexShiftBy(s, p, 0);
  }

  lemma {:induction false} BehindNothing(s: string, rest: Option<string>)
    ensures Behind(s[..0], rest) == rest
  {
    if rest.Some? { assert s[..0] + rest.value == rest.value; }
  }

  lemma {:induction false} BehindBoth(a: string, b: string, rest: Option<string>)
    ensures Behind(a, Behind(b, rest)) == Behind(a + b, rest)
  {
    if rest.Some? { assert a + (b + rest.value) == (a + b) + rest.value; }
  }

  /**
   Every doubled percent sign from `i` on is, when the scan reaches it, in the middle of the string, which has
   grown by `extra` until then.  Only lengths matter, so a caller can tell from the template, the uid and the user.
   */
  predicate Balanced(s: string, i: nat, extra: int, uid: string, user: Option<string>)
    requires i <= |s|
    decreases |s| - i
  {
    var k := IndexFrom(s, '%', i);
    k + 1 >= |s| || Text(s[k + 1], uid, user).None? ||
    ((s[k + 1] == '%' ==> |s| + extra == 2 * (k + extra) + 1)
     && Balanced(s, k + 2, extra + |Text(s[k + 1], uid, user).value| - 2, uid, user))
  }

  lemma {:induction false} ReplacedSlices(str: string, p: nat, k: nat, text: string)
    requires p <= k < |str| - 1
    ensures var str' := str[..k] + text + str[k + 2..];
            && str'[k + |text|..] == str[k + 2..] == str[p..][k - p + 2..]
            && str'[..k + |text|] == str[..p] + (str[p..][..k - p] + text)
  {
  }

  /** One directive of a template. */
  lemma {:induction false} ExpandOne(s: string, k: nat, uid: string, user: Option<string>)
    requires k == IndexFrom(s, '%', 0) && k + 1 < |s| && Text(s[k + 1], uid, user).Some?
    ensures Expand(s, uid, user) == Behind(s[..k] + Text(s[k + 1], uid, user).value, Expand(s[k + 2..], uid, user))
  {
  }

  /** From `p` in `str` and from `p'` in `str'` the expansion gives the same whole. */
  predicate SameWhole(str: string, p: nat, str': string, p': nat, uid: string, user: Option<string>)
    requires p <= |str| && p' <= |str'|
  {
    Behind(str[..p], Expand(str[p..], uid, user)) == Behind(str'[..p'], Expand(str'[p'..], uid, user))
  }

  /** A turn of the loop at `p` in `str` leads to `p'` in `str'`. */
  predicate LeadsTo(str: string, p: nat, str': string, p': nat, uid: string, user: Option<string>)
    requires p <= |str|
  {
    ScanStep(str, |str|, p, uid, user) == At(str', |str'|, p')
  }

  /** Replacing the directive at `k` and moving past the text moves the point of expansion, not its result. */
  lemma {:induction false} Replaced(str: string, p: nat, k: nat, text: string, uid: string, user: Option<string>)
    requires p <= |str| && k == IndexFrom(str, '%', p) && k + 1 < |str| && Text(str[k + 1], uid, user) == Some(text)
    ensures SameWhole(str, p, str[..k] + text + str[k + 2..], k + |text|, uid, user)
  {
    var tail := str[p..];
    IndexShift(str, p);
    ReplacedSlices(str, p, k, text);
    ExpandOne(tail, k - p, uid, user);
    BehindBoth(str[..p], tail[..k - p] + text, Expand(str[k + 2..], uid, user));
  }

  /** The loop replaces a directive as the expansion does; a doubled percent sign if it is in the middle. */
  lemma {:induction false} ScanReplaces(str: string, p: nat, k: nat, text: string, uid: string, user: Option<string>)
    requires p <= |str| && k == IndexFrom(str, '%', p) && k + 1 < |str| && Text(str[k + 1], uid, user) == Some(text)
    requires str[k + 1] == '%' ==> |str| == 2 * k + 1
    ensures LeadsTo(str, p, str[..k] + text + str[k + 2..], k + |text|, uid, user)
  {
    if str[k + 1] == '%' { assert str[..k + 1] + str[k + 2..] == str[..k] + "%" + str[k + 2..]; }
  }

  /** From `p` on, the loop gives the expansion behind what is already there. */
  predicate RightFrom(str: string, p: nat, uid: string, user: Option<string>)
    requires p <= |str|
  {
    Format(str, |str|, p, uid, user) == Result(Behind(str[..p], Expand(str[p..], uid, user)))
  }

  lemma {:induction false} FormatStep(str: string, len: int, p: nat, x: Scan, uid: string, user: Option<string>)
    requires p <= |str| && len <= |str| && x == ScanStep(str, len, p, uid, user)
    ensures Format(str, len, p, uid, user) == if x.Done? then x.r else Format(x.str, x.len, x.p, uid, user)
  {
  }

  lemma {:induction false} RightBefore(str: string, p: nat, str': string, p': nat, uid: string, user: Option<string>)
    requires p <= |str| && p' <= |str'| && RightFrom(str', p', uid, user)
    requires LeadsTo(str, p, str', p', uid, user) && SameWhole(str, p, str', p', uid, user)
    ensures RightFrom(str, p, uid, user)
  {
    FormatStep(str, |str|, p, At(str', |str'|, p'), uid, user);
  }

  lemma {:induction false} ScanEnds(str: string, p: nat, k: nat, uid: string, user: Option<string>)
    requires p <= |str| && k == IndexFrom(str, '%', p)
    requires k + 1 >= |str| || Text(str[k + 1], uid, user).None?
    ensures RightFrom(str, p, uid, user)
  {
    IndexShift(str, p);
    assert str[..p] + str[p..] == str;
  }

  /** The turn of the loop at a directive: the same whole, and what was behind the directive is left. */
  lemma {:induction false} LoopTurn(str: string, p: nat, k: nat, text: string, uid: string, user: Option<string>)
    returns (str': string)
    requires p <= |str| && k == IndexFrom(str, '%', p) && k + 1 < |str| && Text(str[k + 1], uid, user) == Some(text)
    requires str[k + 1] == '%' ==> |str| == 2 * k + 1
    ensures |str'| == |str| - 2 + |text| && str'[k + |text|..] == str[k + 2..]
    ensures LeadsTo(str, p, str', k + |text|, uid, user) && SameWhole(str, p, str', k + |text|, uid, user)
  {
    str' := str[..k] + text + str[k + 2..];
    Replaced(str, p, k, text, uid, user);
    ScanReplaces(str, p, k, text, uid, user);
  }

  /** So if what is left is expanded right, the whole is. */
  lemma {:induction false} LoopStep(str: string, p: nat, k: nat, text: string, uid: string, user: Option<string>)
    returns (str': string, p': nat)
    requires p <= |str| && k == IndexFrom(str, '%', p) && k + 1 < |str| && Text(str[k + 1], uid, user) == Some(text)
    requires str[k + 1] == '%' ==> |str| == 2 * k + 1
    ensures p' == k + |text| <= |str'| && str'[p'..] == str[k + 2..]
    ensures RightFrom(str', p', uid, user) ==> RightFrom(str, p, uid, user)
  {
    str' := LoopTurn(str, p, k, text, uid, user);
    p' := k + |text|;
    if RightFrom(str', p', uid, user) { RightBefore(str, p, str', p', uid, user); }
  }

  /** The template from `i` on is what is left of the string from `p` on. */
  predicate Left(s: string, i: nat, str: string, p: nat) { i <= |s| && p <= |str| && str[p..] == s[i..] }

  lemma {:induction false} LeftFinds(s: string, i: nat, str: string, p: nat)
    requires Left(s, i, str, p)
    ensures IndexFrom(str, '%', p) - p == IndexFrom(s, '%', i) - i && |str| - p == |s| - i
    ensures var k, at := IndexFrom(s, '%', i), IndexFrom(str, '%', p);
            k + 1 < |s| ==> s[k + 1] == str[at + 1]
  {
    IndexShift(str, p);
    IndexShift(s, i);
    var k := IndexFrom(s, '%', i);
    if k + 1 < |s| { assert s[i..][k + 1 - i] == str[p..][k + 1 - i]; }
  }

  lemma {:induction false} LeftBehind(s: string, i: nat, str: string, p: nat, n: nat)
    requires Left(s, i, str, p) && i + n <= |s| && p + n <= |str|
    ensures str[p + n..] == s[i + n..]
  {
    assert str[p..][n..] == str[p + n..] && s[i..][n..] == s[i + n..];
  }

  lemma {:induction false} BalancedTail(s: string, i: nat, extra: int, k: nat, text: string, extra': int, uid: string,
                                        user: Option<string>)
    requires i <= |s| && Balanced(s, i, extra, uid, user)
    requires k == IndexFrom(s, '%', i) && k + 1 < |s| && Text(s[k + 1], uid, user) == Some(text)
    requires extra' == extra + |text| - 2
    ensures s[k + 1] == '%' ==> |s| + extra == 2 * (k + extra) + 1
    ensures Balanced(s, k + 2, extra', uid, user)
  {
  }

  /** There is a directive at `at`, and it stands for `text`. */
  predicate DirectiveAt(str: string, p: nat, at: nat, text: string, uid: string, user: Option<string>) {
    p <= |str| && at == IndexFrom(str, '%', p) && at + 1 < |str| && Text(str[at + 1], uid, user) == Some(text)
  }

  /** The next directive of a balanced template is in the middle if it is a doubled percent sign... */
  lemma {:induction false} BalancedHere(s: string, i: nat, str: string, p: nat, at: nat, text: string, uid: string,
                                        user: Option<string>)
    requires Left(s, i, str, p) && Balanced(s, i, p - i, uid, user) && DirectiveAt(str, p, at, text, uid, user)
    ensures str[at + 1] == '%' ==> |str| == 2 * at + 1
  {
    LeftFinds(s, i, str, p);
  }

  /** What is behind it in the string is what is behind it in the template... */
  lemma {:induction false} LeftNext(s: string, i: nat, str: string, p: nat, at: nat, str': string, p': nat)
    requires Left(s, i, str, p) && at == IndexFrom(str, '%', p) && at + 1 < |str|
    requires p' <= |str'| && str'[p'..] == str[at + 2..]
    ensures IndexFrom(s, '%', i) + 2 <= |s| && Left(s, IndexFrom(s, '%', i) + 2, str', p')
  {
    LeftFinds(s, i, str, p);
    LeftBehind(s, i, str, p, at + 2 - p);
  }

  /** ...and that is balanced. */
  lemma {:induction false} BalancedBehind(s: string, i: nat, str: string, p: nat, at: nat, text: string, uid: string,
                                          user: Option<string>)
    requires Left(s, i, str, p) && Balanced(s, i, p - i, uid, user) && DirectiveAt(str, p, at, text, uid, user)
    ensures var i' := IndexFrom(s, '%', i) + 2; i' <= |s| && Balanced(s, i', at + |text| - i', uid, user)
  {
    var k := IndexFrom(s, '%', i);
    LeftFinds(s, i, str, p);
    BalancedTail(s, i, p - i, k, text, at + |text| - (k + 2), uid, user);
  }

  lemma {:induction false} BalancedNext(s: string, i: nat, str: string, p: nat, at: nat, text: string, str': string,
                                        p': nat, uid: string, user: Option<string>)
    returns (i': nat)
    requires Left(s, i, str, p) && Balanced(s, i, p - i, uid, user) && DirectiveAt(str, p, at, text, uid, user)
    requires p' == at + |text| <= |str'| && str'[p'..] == str[at + 2..]
    ensures i < i' && Left(s, i', str', p') && Balanced(s, i', p' - i', uid, user)
  {
    i' := IndexFrom(s, '%', i) + 2;
    LeftNext(s, i, str, p, at, str', p');
    BalancedBehind(s, i, str, p, at, text, uid, user);
  }

  /** The turn of the loop in a balanced template: what is left is balanced, and decides. */
  lemma {:induction false} BalancedStep(s: string, i: nat, str: string, p: nat, at: nat, text: string, uid: string,
                                        user: Option<string>)
    returns (i': nat, str': string, p': nat)
    requires Left(s, i, str, p) && Balanced(s, i, p - i, uid, user) && DirectiveAt(str, p, at, text, uid, user)
    ensures i < i' && Left(s, i', str', p') && Balanced(s, i', p' - i', uid, user)
    ensures RightFrom(str', p', uid, user) ==> RightFrom(str, p, uid, user)
  {
    BalancedHere(s, i, str, p, at, text, uid, user);
    str', p' := LoopStep(str, p, at, text, uid, user);
    i' := BalancedNext(s, i, str, p, at, text, str', p', uid, user);
  }

  lemma {:induction false} BalancedFrom(s: string, i: nat, str: string, p: nat, uid: string, user: Option<string>)
    requires Left(s, i, str, p) && Balanced(s, i, p - i, uid, user)
    ensures RightFrom(str, p, uid, user)
    decreases |s| - i
  {
    var at := IndexFrom(str, '%', p);
    if at + 1 >= |str| || Text(str[at + 1], uid, user).None? {
      ScanEnds(str, p, at, uid, user);
    } else {
      var i', str', p' := BalancedStep(s, i, str, p, at, Text(str[at + 1], uid, user).value, uid, user);
      BalancedFrom(s, i', str', p', uid, user);
    }
  }

  /** Where every doubled percent sign is in the middle when it is reached, the loop gives the expansion. */
  lemma {:induction false} BalancedIsRight(s: string, uid: string, user: Option<string>)
    requires Balanced(s, 0, 0, uid, user)
    ensures FormatOf(s, uid, user) == Result(Expand(s, uid, user))
  {
    assert s[0..] == s;
    BalancedFrom(s, 0, s, 0, uid, user);
    BehindNothing(s, Expand(s, uid, user));
  }

  predicate NoDoubled(s: string) { forall i :: 0 <= i < |s| - 1 ==> !(s[i] == '%' && s[i + 1] == '%') }

  lemma {:induction false} NoDoubledBalanced(s: string, i: nat, extra: int, uid: string, user: Option<string>)
    requires NoDoubled(s) && i <= |s|
    ensures Balanced(s, i, extra, uid, user)
    decreases |s| - i
  {
    var k := IndexFrom(s, '%', i);
    if k + 1 < |s| && Text(s[k + 1], uid, user).Some? {
      NoDoubledBalanced(s, k + 2, extra + |Text(s[k + 1], uid, user).value| - 2, uid, user);
    }
  }

  /** Without doubled percent signs the loop always gives the expansion. */
  lemma {:induction false} NoDoubledIsRight(s: string, uid: string, user: Option<string>)
    requires NoDoubled(s)
    ensures FormatOf(s, uid, user) == Result(Expand(s, uid, user))
  {
    NoDoubledBalanced(s, 0, 0, uid, user);
    BalancedIsRight(s, uid, user);
  }

  lemma {:induction false} NoneFound(s: string, i: nat)
    requires i <= |s| && forall j :: i <= j < |s| ==> s[j] != '%'
    ensures IndexFrom(s, '%', i) == |s|
    decreases |s| - i
  {
    if i < |s| { NoneFound(s, i + 1); }
  }

  lemma {:induction false} FoundAt(s: string, i: nat, k: nat)
    requires i <= k < |s| && s[k] == '%' && forall j :: i <= j < k ==> s[j] != '%'
    ensures IndexFrom(s, '%', i) == k
    decreases k - i
  {
    if i < k { FoundAt(s, i + 1, k); }
  }

  /** What a template stands for, read from its front: text, then one directive, then the rest. */
  lemma {:induction false} ExpandFront(pre: string, c: char, rest: string, uid: string, user: Option<string>)
    requires '%' !in pre
    ensures Expand(pre, uid, user) == Some(pre) && Expand(pre + "%", uid, user) == None
    ensures Expand(pre + ['%', c] + rest, uid, user) ==
            match c
            case 'U' => Behind(pre + uid, Expand(rest, uid, user))
            case 'u' => if user.None? then None else Behind(pre + user.value, Expand(rest, uid, user))
            case '%' => Behind(pre + "%", Expand(rest, uid, user))
            case _ => None
  {
    var s := pre + ['%', c] + rest;
    NoneFound(pre, 0);
    FoundAt(pre + "%", 0, |pre|);
    FoundAt(s, 0, |pre|);
    assert s[..|pre|] == pre && s[|pre| + 2..] == rest && s[|pre| + 1] == c;
  }

  /** What follows a doubled percent sign that has been dropped holds no further one. */
  lemma {:induction false} CollapsedClean(pre: string, post: string, i: nat)
    requires '%' !in post && 0 < |pre| <= |post| + 1
    requires |pre| + 1 <= i < |Collapsed(pre + "%%" + post, |pre|)|
    ensures Collapsed(pre + "%%" + post, |pre|)[i] != '%'
  {
    var s, k := pre + "%%" + post, |pre|;
    var c := Collapsed(s, k);
    if |post| + 1 == k || i < 2 * k + 1 {
      assert c[i] == s[i + 1] == post[i - k - 1];
    } else {
      assert c[i] == s[i] == post[i - k - 2];
    }
  }

  /** What a template with one doubled percent sign, not at its front, becomes. */
  lemma {:induction false} LoneDoubledResult(pre: string, post: string, uid: string, user: Option<string>)
    requires '%' !in pre && '%' !in post && pre != ""
    ensures FormatOf(pre + "%%" + post, uid, user) ==
            if |post| + 1 < |pre| then Undefined else Formatted(Collapsed(pre + "%%" + post, |pre|))
  {
    var s, k := pre + "%%" + post, |pre|;
    FoundAt(s, 0, k);
    if |post| + 1 < k {
      FormatStep(s, |s|, 0, Done(Undefined), uid, user);
    } else {
      var c := Collapsed(s, k);
      forall i | k + 1 <= i < |c| ensures c[i] != '%' {
        CollapsedClean(pre, post, i);
      }
      NoneFound(c, k + 1);
      FormatStep(s, |s|, 0, At(c, |s| - 1, k + 1), uid, user);
      FormatStep(c, |s| - 1, k + 1, Done(Formatted(c)), uid, user);
    }
  }

  lemma {:induction false} FrontDirective(post: string, text: string, uid: string, user: Option<string>)
    requires '%' !in post && |post| >= 2 && Text(post[0], uid, user) == Some(text)
    ensures var s, str' := "%%" + post, "%" + text + post[1..];
            ScanStep(s, |s| - 1, 1, uid, user) == At(str', |str'|, |text| + 2)
  {
    var s := "%%" + post;
    FoundAt(s, 1, 1);
    assert s[..1] + text + s[3..] == "%" + text + post[1..];
  }

  /** A template that starts with a doubled percent sign: the second one is taken for the start of a directive. */
  lemma {:induction false} FrontDoubledResult(post: string, uid: string, user: Option<string>)
    requires '%' !in post
    ensures FormatOf("%%" + post, uid, user) ==
            if post == "" || Text(post[0], uid, user).None? then Refused
            else if |post| == 1 then Undefined
            else Formatted("%" + Text(post[0], uid, user).value + post[1..])
  {
    var s := "%%" + post;
    FoundAt(s, 0, 0);
    FoundAt(s, 1, 1);
    assert Collapsed(s, 0) == s;
    FormatStep(s, |s|, 0, At(s, |s| - 1, 1), uid, user);
    if post == "" || Text(post[0], uid, user).None? {
      FormatStep(s, |s| - 1, 1, Done(Refused), uid, user);
    } else if |post| == 1 {
      FormatStep(s, |s| - 1, 1, Done(Undefined), uid, user);
    } else {
      var text := Text(post[0], uid, user).value;
      var str' := "%" + text + post[1..];
      FrontDirective(post, text, uid, user);
      FormatStep(s, |s| - 1, 1, At(str', |str'|, |text| + 2), uid, user);
      NoneFound(str', |text| + 2);
      FormatStep(str', |str'|, |text| + 2, Done(Formatted(str')), uid, user);
    }
  }

  /** The expansion of such a template. */
  lemma {:induction false} LoneDoubledExpansion(pre: string, post: string, uid: string, user: Option<string>)
    requires '%' !in pre && '%' !in post
    ensures Expand(pre + "%%" + post, uid, user) == Some(pre + "%" + post)
  {
    var s, k := pre + "%%" + post, |pre|;
    FoundAt(s, 0, k);
    assert s[k + 2..] == post && s[..k] == pre;
    NoneFound(post, 0);
  }

  lemma {:induction false} CollapsedRight(pre: string, post: string)
    requires |pre| <= |post| + 1
    ensures Collapsed(pre + "%%" + post, |pre|) == pre + "%" + post <==> |post| + 1 == |pre|
  {
    var s := pre + "%%" + post;
    if |post| + 1 == |pre| {
      assert s[..|pre| + 1] == pre + "%" && s[|pre| + 2..] == post;
    } else {
      assert |Collapsed(s, |pre|)| == |s|;
    }
  }

  lemma {:induction false} MiddleExact(pre: string, post: string, uid: string, user: Option<string>)
    requires '%' !in pre && '%' !in post && pre != ""
    ensures FormatOf(pre + "%%" + post, uid, user) == Formatted(pre + "%" + post) <==> |post| + 1 == |pre|
  {
    LoneDoubledResult(pre, post, uid, user);
    if |pre| <= |post| + 1 { CollapsedRight(pre, post); }
  }

  lemma {:induction false} FrontExact(post: string, uid: string, user: Option<string>)
    requires '%' !in post
    ensures FormatOf("%%" + post, uid, user) == Formatted("%" + post) <==>
            |post| >= 2 && Text(post[0], uid, user) == Some([post[0]])
  {
    FrontDoubledResult(post, uid, user);
    if |post| >= 2 && Text(post[0], uid, user).Some? { SameFront(post, Text(post[0], uid, user).value); }
  }

  /**
   Exactly when a template whose only percent signs are one doubled one expands right: it is in the middle of
   the template or, at the front, the directive it is taken for happens to stand for its own letter.
   */
  lemma {:induction false} LoneDoubledExact(pre: string, post: string, uid: string, user: Option<string>)
    requires '%' !in pre && '%' !in post
    ensures FormatOf(pre + "%%" + post, uid, user) == Result(Expand(pre + "%%" + post, uid, user)) <==>
            if pre != "" then |post| + 1 == |pre| else |post| >= 2 && Text(post[0], uid, user) == Some([post[0]])
  {
    LoneDoubledExpansion(pre, post, uid, user);
    if pre != "" {
      MiddleExact(pre, post, uid, user);
    } else {
      assert pre + "%%" + post == "%%" + post && pre + "%" + post == "%" + post;
      FrontExact(post, uid, user);
    }
  }

  lemma {:induction false} SameFront(post: string, text: string)
    requires post != ""
    ensures "%" + text + post[1..] == "%" + post <==> text == [post[0]]
  {
    var a, b := "%" + text + post[1..], "%" + post;
    assert b == "%" + [post[0]] + post[1..];
    if a == b {
      assert |text| == 1;
      assert a[1] == text[0] && b[1] == post[0];
    }
  }

  /** The doubled percent sign alone is refused. */
  lemma {:induction false} DoubledAlone(uid: string, user: Option<string>)
    ensures FormatOf("%%", uid, user) == Refused && Expand("%%", uid, user) == Some("%")
  {
    FrontDoubledResult("", uid, user);
    LoneDoubledExpansion("", "", uid, user);
    assert "%%" + "" == "%%" && "" + "%%" + "" == "%%" && "" + "%" + "" == "%";
  }

  /** Unbalanced, and right for the user named "u" alone: no condition on the template could be exact in general. */
  lemma {:induction false} RightByAccident(uid: string)
    ensures !Balanced("%%ux", 0, 0, uid, Some("u"))
    ensures FormatOf("%%ux", uid, Some("u")) == Result(Expand("%%ux", uid, Some("u")))
  {
    assert "" + "%%" + "ux" == "%%ux";
    LoneDoubledExact("", "ux", uid, Some("u"));
    FoundAt("%%ux", 0, 0);
  }

  // ----- the store -----

  datatype Entry = Entry(key: string, value: string)

  /** The last entry of a key. */
  function LastOf(s: seq<Entry>, key: string): (k: Option<nat>)
    ensures k.Some? ==> k.value < |s| && s[k.value].key == key
  {
    if s == [] then None
    else if s[|s| - 1].key == key then Some(|s| - 1)
    else LastOf(s[..|s| - 1], key)
  }

  /** A store, none because of an error, or nothing that can be said. */
  datatype Stored = Stored(s: seq<Entry>) | Failed | Unknown

  /** The configured entries with their values formatted; the first value that is not a string decides. */
  function FormatAll(s: seq<Entry>, uid: string, user: Option<string>): (r: Stored)
    ensures r.Stored? ==> |r.s| == |s|
  {
    if s == [] then Stored([])
    else
      var last := s[|s| - 1];
      match FormatAll(s[..|s| - 1], uid, user)
      case Failed => Failed
      case Unknown => Unknown
      case Stored(front) =>
        match FormatOf(last.value, uid, user)
        case Refused => Failed
        case Undefined => Unknown
        case Formatted(value) => Stored(front + [Entry(last.key, value)])
  }

  /** With the service's keytab: the client keytab is the keytab, or stands on its own if there is no keytab. */
  function WithKeytab(s: seq<Entry>): (r: Option<seq<Entry>>)
    ensures r.Some? ==> |s| <= |r.value| <= |s| + 1
  {
    var k, ck := LastOf(s, "keytab"), LastOf(s, "client_keytab");
    if k.None? then (if ck.None? then None else Some(s))
    else if ck.None? then Some(s + [Entry("client_keytab", s[k.value].value)])
    else Some(s[ck.value := Entry("client_keytab", s[k.value].value)])
  }

  function WithCache(s: seq<Entry>, cache: string): (r: seq<Entry>)
    ensures |s| <= |r| <= |s| + 1
  {
    if LastOf(s, "ccache").None? then s + [Entry("ccache", cache)] else s
  }

  /** The store for a call: a private ccache is added unless one is configured or only a client keytab is used. */
  function Store(src: seq<Entry>, uid: string, user: Option<string>, useKeytab: bool, cache: string): (r: Stored)
    ensures r.Stored? ==> |r.s| <= |src| + 2
  {
    if src == [] then Stored([])
    else
      match FormatAll(src, uid, user)
      case Failed => Failed
      case Unknown => Unknown
      case Stored(s) =>
        if !useKeytab then Stored(WithCache(s, cache))
        else
          var t := WithKeytab(s);
          if t.None? then Failed
          else if LastOf(s, "keytab").None? then Stored(t.value)
          else Stored(WithCache(t.value, cache))
  }

  predicate Position(n: int, k: Option<nat>) { n == if k.Some? then k.value else -1 }

  /** The positions that the assembly remembers. */
  predicate Positions(s: seq<Entry>, ck: int, k: int, cc: int) {
    Position(ck, LastOf(s, "client_keytab")) && Position(k, LastOf(s, "keytab")) && Position(cc, LastOf(s, "ccache"))
  }

  lemma {:induction false} LastOfPush(s: seq<Entry>, e: Entry, key: string)
    ensures LastOf(s + [e], key) == if e.key == key then Some(|s|) else LastOf(s, key)
  {
  }

  function Next(key: string, wanted: string, count: nat, n: int): int { if key == wanted then count else n }

  lemma {:induction false} PositionsPush(s: seq<Entry>, e: Entry, ck: int, k: int, cc: int)
    requires Positions(s, ck, k, cc)
    ensures Positions(s + [e], Next(e.key, "client_keytab", |s|, ck), Next(e.key, "keytab", |s|, k),
                      Next(e.key, "ccache", |s|, cc))
  {
  }

  method Remember(key: string, count: nat, ck: int, k: int, cc: int) returns (ck': int, k': int, cc': int)
    ensures ck' == Next(key, "client_keytab", count, ck)
    ensures k' == Next(key, "keytab", count, k)
    ensures cc' == Next(key, "ccache", count, cc)
  {
    ck', k', cc' := ck, k, cc;
    assert "keytab"[0] != "ccache"[0];
    if key == "client_keytab" {
      ck' := count;
    } else if key == "keytab" {
      k' := count;
    } else if key == "ccache" {
      cc' := count;
    }
  }

  lemma {:induction false} FormatPush(src: seq<Entry>, d: nat, front: seq<Entry>, uid: string, user: Option<string>)
    requires d < |src| && FormatAll(src[..d], uid, user) == Stored(front)
    ensures FormatAll(src[..d + 1], uid, user) ==
            match FormatOf(src[d].value, uid, user)
            case Refused => Failed
            case Undefined => Unknown
            case Formatted(value) => Stored(front + [Entry(src[d].key, value)])
  {
    assert src[..d + 1][..d] == src[..d];
  }

  /** The first entry without a value decides. */
  lemma {:induction false} FormatStops(src: seq<Entry>, n: nat, uid: string, user: Option<string>)
    requires n <= |src| && !FormatAll(src[..n], uid, user).Stored?
    ensures FormatAll(src, uid, user) == FormatAll(src[..n], uid, user)
    decreases |src| - n
  {
    if n < |src| {
      assert src[..n + 1][..n] == src[..n];
      FormatStops(src, n + 1, uid, user);
    } else {
      assert src[..n] == src;
    }
  }

  /** The loop over the configured entries. */
  method CopyEntries(src: seq<Entry>, uid: string, user: Option<string>, elements: array<Entry>)
    returns (bad: Stored, count: nat, ck: int, k: int, cc: int)
    requires elements.Length == |src| + 2
    modifies elements
    ensures count <= |src| && (bad.Stored? <==> FormatAll(src, uid, user).Stored?)
    ensures !bad.Stored? ==> bad == FormatAll(src, uid, user)
    ensures bad.Stored? ==> FormatAll(src, uid, user) == Stored(elements[..count])
    ensures bad.Stored? ==> Positions(elements[..count], ck, k, cc)
  {
    count, ck, k, cc := 0, -1, -1, -1;
    for d := 0 to |src|
      invariant count == d
      invariant FormatAll(src[..d], uid, user) == Stored(elements[..count])
      invariant Positions(elements[..count], ck, k, cc)
    {
      ghost var s := elements[..count];
      var value := FormattedString(src[d].value, uid, user);
      FormatPush(src, d, s, uid, user);
      if !value.Formatted? {
        FormatStops(src, d + 1, uid, user);
        bad := if value.Refused? then Failed else Unknown;
        return;
      }
      var e := Entry(src[d].key, value.s);
      elements[count] := e;
      count := count + 1;
      assert elements[..count] == s + [e];
      PositionsPush(s, e, ck, k, cc);
      ck, k, cc := Remember(e.key, d, ck, k, cc);
    }
    assert src[..|src|] == src;
    bad := Stored([]);
  }

  lemma {:induction false} LastOfIsLast(s: seq<Entry>, key: string, j: nat)
    requires j < |s| && s[j].key == key
    ensures LastOf(s, key).Some? && j <= LastOf(s, key).value
    decreases |s|
  {
    if s[|s| - 1].key != key { LastOfIsLast(s[..|s| - 1], key, j); }
  }

  /** Adding the client keytab does not change whether a ccache is configured. */
  lemma {:induction false} CacheSurvives(s: seq<Entry>)
    requires WithKeytab(s).Some?
    ensures LastOf(WithKeytab(s).value, "ccache").None? <==> LastOf(s, "ccache").None?
  {
    var t := WithKeytab(s).value;
    if LastOf(s, "ccache").Some? { LastOfIsLast(t, "ccache", LastOf(s, "ccache").value); }
    if LastOf(t, "ccache").Some? { LastOfIsLast(s, "ccache", LastOf(t, "ccache").value); }
  }

  /** The keytab's value into the client keytab's entry, which is added if missing. */
  method PutKeytab(elements: array<Entry>, count: nat, ck: int, k: int, ghost cc: int) returns (count': nat)
    requires count < elements.Length && Positions(elements[..count], ck, k, cc) && k != -1
    modifies elements
    ensures count <= count' <= count + 1
    ensures WithKeytab(old(elements[..count])) == Some(elements[..count'])
  {
    ghost var s := elements[..count];
    var at := if ck == -1 then count else ck;
    count' := if ck == -1 then count + 1 else count;
    var e := Entry("client_keytab", elements[k].value);
    elements[at] := e;
    assert elements[..count'] == if ck == -1 then s + [e] else s[ck := e];
  }

  /** ensure_segregated_ccache. */
  method PutCache(elements: array<Entry>, count: nat, cc: int, cache: string) returns (count': nat)
    requires count < elements.Length && (cc == -1 <==> LastOf(elements[..count], "ccache").None?)
    modifies elements
    ensures count <= count' <= count + 1 && elements[..count'] == WithCache(old(elements[..count]), cache)
  {
    count' := count;
    if cc == -1 {
      ghost var s := elements[..count];
      elements[count] := Entry("ccache", cache);
      count' := count + 1;
      assert elements[..count'] == s + [Entry("ccache", cache)];
    }
  }

  /** The assembly in gp_get_cred_environment: entries in an array with room for two more than are configured. */
  method BuildStore(src: seq<Entry>, uid: string, user: Option<string>, useKeytab: bool, cache: string)
    returns (r: Stored, elements: array<Entry>)
    ensures fresh(elements) && elements.Length == |src| + 2
    ensures r == Store(src, uid, user, useKeytab, cache)
    ensures r.Stored? ==> |r.s| <= elements.Length && elements[..|r.s|] == r.s
  {
    elements := new Entry[|src| + 2](_ => Entry("", ""));
    if |src| == 0 {
      return Stored([]), elements;
    }
    var count, ck, k, cc;
    r, count, ck, k, cc := CopyEntries(src, uid, user, elements);
    if !r.Stored? {
      return;
    }
    ghost var s := elements[..count];
    if useKeytab {
      if k == -1 {
        r := if ck == -1 then Failed else Stored(elements[..count]);
        return;
      }
      count := PutKeytab(elements, count, ck, k, cc);
      CacheSurvives(s);
    }
    count := PutCache(elements, count, cc, cache);
    r := Stored(elements[..count]);
  }

  /** In a store that uses the service's keytab, the client keytab that counts has the keytab's value. */
  lemma {:induction false} ClientKeytabIsKeytab(s: seq<Entry>)
    requires LastOf(s, "keytab").Some?
    ensures WithKeytab(s).Some?
    ensures var t := WithKeytab(s).value;
            && LastOf(t, "client_keytab").Some?
            && t[LastOf(t, "client_keytab").value].value == s[LastOf(s, "keytab").value].value
  {
    var t := WithKeytab(s).value;
    var ck := LastOf(s, "client_keytab");
    if ck.None? {
      LastOfPush(s, t[|s|], "client_keytab");
    } else {
      LastOfIsLast(t, "client_keytab", ck.value);
      LastOfIsLast(s, "client_keytab", LastOf(t, "client_keytab").value);
    }
  }

  // ----- what is in a store -----

  /** The configured values formatted one by one: all of them, or the first that is not a string decides. */
  lemma {:induction false} FormatsEach(src: seq<Entry>, uid: string, user: Option<string>, d: nat)
    requires d < |src|
    ensures FormatAll(src, uid, user).Stored? ==>
              && FormatOf(src[d].value, uid, user).Formatted?
              && FormatAll(src, uid, user).s[d] == Entry(src[d].key, FormatOf(src[d].value, uid, user).s)
    ensures (forall j :: 0 <= j < d ==> FormatOf(src[j].value, uid, user).Formatted?)
            && !FormatOf(src[d].value, uid, user).Formatted? ==>
              FormatAll(src, uid, user) == if FormatOf(src[d].value, uid, user).Refused? then Failed else Unknown
    decreases |src|
  {
    var front := src[..|src| - 1];
    if d < |src| - 1 {
      FormatsEach(front, uid, user, d);
    } else if forall j :: 0 <= j < d ==> FormatOf(src[j].value, uid, user).Formatted? {
      AllFormatted(front, uid, user);
    }
  }

  lemma {:induction false} AllFormatted(src: seq<Entry>, uid: string, user: Option<string>)
    requires forall j :: 0 <= j < |src| ==> FormatOf(src[j].value, uid, user).Formatted?
    ensures FormatAll(src, uid, user).Stored?
  {
    if src != [] { AllFormatted(src[..|src| - 1], uid, user); }
  }

  predicate Has(s: seq<Entry>, key: string) { exists d :: 0 <= d < |s| && s[d].key == key }

  lemma {:induction false} HasLast(s: seq<Entry>, key: string)
    ensures LastOf(s, key).Some? <==> Has(s, key)
    ensures forall d :: 0 <= d < |s| && s[d].key == key ==> LastOf(s, key).Some? && d <= LastOf(s, key).value
  {
    forall d: nat | d < |s| && s[d].key == key ensures LastOf(s, key).Some? && d <= LastOf(s, key).value {
      LastOfIsLast(s, key, d);
    }
    if LastOf(s, key).Some? { assert s[LastOf(s, key).value].key == key; }
  }

  lemma {:induction false} HasSame(src: seq<Entry>, uid: string, user: Option<string>, key: string)
    requires FormatAll(src, uid, user).Stored?
    ensures Has(FormatAll(src, uid, user).s, key) <==> Has(src, key)
  {
    var s := FormatAll(src, uid, user).s;
    forall d: nat | d < |src| ensures s[d].key == src[d].key { FormatsEach(src, uid, user, d); }
    if d :| 0 <= d < |src| && src[d].key == key { assert s[d].key == key; }
  }

  /** There is no store exactly when a value is refused, or when the keytab is wanted and no keytab is configured. */
  lemma {:induction false} StoreFails(src: seq<Entry>, uid: string, user: Option<string>, useKeytab: bool,
                                      cache: string)
    ensures Store(src, uid, user, useKeytab, cache) == Failed <==>
            && src != []
            && (FormatAll(src, uid, user) == Failed
                || (FormatAll(src, uid, user).Stored? && useKeytab
                    && !Has(src, "keytab") && !Has(src, "client_keytab")))
  {
    if FormatAll(src, uid, user).Stored? {
      var s := FormatAll(src, uid, user).s;
      HasSame(src, uid, user, "keytab");
      HasSame(src, uid, user, "client_keytab");
      HasLast(s, "keytab");
      HasLast(s, "client_keytab");
    }
  }

  /** The configured entries stay in their places with their formatted values, the client keytab's apart. */
  lemma {:induction false} StoreKeeps(src: seq<Entry>, uid: string, user: Option<string>, useKeytab: bool,
                                      cache: string, d: nat)
    requires Store(src, uid, user, useKeytab, cache).Stored? && d < |src|
    requires !useKeytab || src[d].key != "client_keytab"
    ensures var r := Store(src, uid, user, useKeytab, cache).s;
      && FormatOf(src[d].value, uid, user).Formatted? && |r| >= |src|
      && r[d] == Entry(src[d].key, FormatOf(src[d].value, uid, user).s)
  {
    FormatsEach(src, uid, user, d);
  }

  /** What is added: a client keytab if there is only a keytab to use, and a private cache unless one is configured. */
  lemma {:induction false} StoreAdds(src: seq<Entry>, uid: string, user: Option<string>, useKeytab: bool, cache: string)
    requires src != [] && Store(src, uid, user, useKeytab, cache).Stored?
    ensures var r := Store(src, uid, user, useKeytab, cache).s;
            var added := useKeytab && Has(src, "keytab") && !Has(src, "client_keytab");
            var cached := !Has(src, "ccache") && (!useKeytab || Has(src, "keytab"));
      && |r| == |src| + (if added then 1 else 0) + (if cached then 1 else 0)
      && (added ==> r[|src|].key == "client_keytab")
      && (cached ==> r[|r| - 1] == Entry("ccache", cache))
  {
    var s := FormatAll(src, uid, user).s;
    HasSame(src, uid, user, "keytab");
    HasSame(src, uid, user, "client_keytab");
    HasSame(src, uid, user, "ccache");
    HasLast(s, "keytab");
    HasLast(s, "client_keytab");
    HasLast(s, "ccache");
    if WithKeytab(s).Some? { CacheSurvives(s); }
  }

  /** Putting the client keytab in does not touch the keytab. */
  lemma {:induction false} KeytabStays(s: seq<Entry>)
    requires LastOf(s, "keytab").Some?
    ensures WithKeytab(s).Some?
    ensures var t := WithKeytab(s).value;
            LastOf(t, "keytab") == LastOf(s, "keytab") && t[LastOf(s, "keytab").value] == s[LastOf(s, "keytab").value]
  {
    var t, k := WithKeytab(s).value, LastOf(s, "keytab").value;
    LastOfIsLast(t, "keytab", k);
    var l := LastOf(t, "keytab").value;
    if l < |s| { LastOfIsLast(s, "keytab", l); }
  }

  /** Adding a cache does not change which entry of another key counts. */
  lemma {:induction false} OthersStay(t: seq<Entry>, cache: string, key: string)
    requires key != "ccache"
    ensures LastOf(WithCache(t, cache), key) == LastOf(t, key) && t <= WithCache(t, cache)
  {
    LastOfPush(t, Entry("ccache", cache), key);
  }

  /** When the keytab is used, the client keytab that counts in the store has the value of the keytab that counts. */
  lemma {:induction false} StoreKeytab(src: seq<Entry>, uid: string, user: Option<string>, cache: string)
    requires Has(src, "keytab") && Store(src, uid, user, true, cache).Stored?
    ensures var r := Store(src, uid, user, true, cache).s;
            var k, ck := LastOf(r, "keytab"), LastOf(r, "client_keytab");
            k.Some? && ck.Some? && r[ck.value].value == r[k.value].value
  {
    var s := FormatAll(src, uid, user).s;
    HasSame(src, uid, user, "keytab");
    HasLast(s, "keytab");
    ClientKeytabIsKeytab(s);
    KeytabStays(s);
    assert "keytab"[0] != "ccache"[0] && |"client_keytab"| != |"ccache"|;
    OthersStay(WithKeytab(s).value, cache, "keytab");
    OthersStay(WithKeytab(s).value, cache, "client_keytab");
  }
}
