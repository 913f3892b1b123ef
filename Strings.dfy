/** The two PHP string builtins whose exact behaviour the core depends on:
    `str_replace` (locale rewrite of view paths) and `basename` (module
    identifiers of local controllers). */
module Strings {

  /** `n` occurs in `s` starting at index `i`. */
  ghost predicate OccursAt(n: string, s: string, i: int)
  {
    0 <= i && i + |n| <= |s| && s[i..i + |n|] == n
  }

  ghost predicate Occurs(n: string, s: string)
  {
    exists i :: OccursAt(n, s, i)
  }

  /** An occurrence in the tail of `s` is an occurrence in `s`. */
  lemma OccursInTail(n: string, s: string)
    requires |s| > 0
    ensures Occurs(n, s[1..]) ==> Occurs(n, s)
  {
    if Occurs(n, s[1..]) {
      var i :| OccursAt(n, s[1..], i);
      assert s[1..][i..i + |n|] == s[i + 1..i + 1 + |n|];
      assert OccursAt(n, s, i + 1);
    }
  }

  /** `str_replace(n, r, s)`: every occurrence of `n`, scanning left to
      right without overlap, replaced by `r`; an empty `n` changes nothing.
      A subject in which the needle does not occur comes back unchanged. */
  function ReplaceAll(n: string, r: string, s: string): (t: string)
    ensures !Occurs(n, s) ==> t == s
    decreases |s|
  {
    if |n| == 0 || |s| < |n| then s
    else if s[..|n|] == n then
      assert OccursAt(n, s, 0) by { assert s[0..|n|] == s[..|n|]; }
      r + ReplaceAll(n, r, s[|n|..])
    else
      OccursInTail(n, s);
      assert s == [s[0]] + s[1..];
      [s[0]] + ReplaceAll(n, r, s[1..])
  }

  /** A subject that starts with the needle, with no further occurrence,
      gets exactly its leading needle replaced. */
  lemma ReplaceLeading(n: string, r: string, rest: string)
    requires |n| > 0 && !Occurs(n, rest)
    ensures ReplaceAll(n, r, n + rest) == r + rest
  {
    var s := n + rest;
    assert s[..|n|] == n;
    assert s[|n|..] == rest;
  }

  /** An occurrence in the tail of `u` is an occurrence in `u`, one
      position later. */
  lemma OccursShift(n: string, u: string, i: int)
    requires |u| > 0 && OccursAt(n, u[1..], i)
    ensures OccursAt(n, u, i + 1)
  {
    assert u[1..][i..i + |n|] == u[i + 1..i + 1 + |n|];
  }

  /** A prefix in which no occurrence of the needle starts is copied
      through unchanged, and the scan carries on after it. */
  lemma {:induction false} ReplaceAfterPrefix(n: string, r: string, pre: string, s: string)
    requires forall i :: 0 <= i < |pre| ==> !OccursAt(n, pre + s, i)
    ensures ReplaceAll(n, r, pre + s) == pre + ReplaceAll(n, r, s)
    decreases |pre|
  {
    var u := pre + s;
    if |pre| == 0 {
      assert u == s;
    } else if |n| == 0 || |u| < |n| {
      assert ReplaceAll(n, r, s) == s;
    } else {
      var tail := pre[1..] + s;
      assert u[1..] == tail;
      assert !OccursAt(n, u, 0);
      assert u[..|n|] != n by { assert u[0..|n|] == u[..|n|]; }
      assert ReplaceAll(n, r, u) == [u[0]] + ReplaceAll(n, r, tail);
      forall i | 0 <= i < |pre| - 1 ensures !OccursAt(n, tail, i) {
        if OccursAt(n, tail, i) {
          OccursShift(n, u, i);
        }
      }
      ReplaceAfterPrefix(n, r, pre[1..], s);
      assert pre == [u[0]] + pre[1..];
    }
  }

  /** A needle that occurs once, after a prefix where no occurrence
      starts, is replaced exactly there. */
  lemma ReplaceOnce(n: string, r: string, pre: string, rest: string)
    requires |n| > 0 && !Occurs(n, rest)
    requires forall i :: 0 <= i < |pre| ==> !OccursAt(n, pre + n + rest, i)
    ensures ReplaceAll(n, r, pre + n + rest) == pre + r + rest
  {
    var v := n + rest;
    assert pre + n + rest == pre + v;
    forall i | 0 <= i < |pre| ensures !OccursAt(n, pre + v, i) {
      assert !OccursAt(n, pre + n + rest, i);
    }
    ReplaceAfterPrefix(n, r, pre, v);
    ReplaceLeading(n, r, rest);
    assert pre + (r + rest) == pre + r + rest;
  }

  /** `s` without its trailing slashes. */
  function TrimSlashes(s: string): (t: string)
    ensures |t| <= |s| && t == s[..|t|]
    ensures |t| == 0 || t[|t| - 1] != '/'
    ensures forall k :: |t| <= k < |s| ==> s[k] == '/'
  {
    if |s| > 0 && s[|s| - 1] == '/' then TrimSlashes(s[..|s| - 1]) else s
  }

  /** The part of `s` after its last slash. */
  function LastSegment(s: string): (t: string)
    ensures '/' !in t
    ensures |t| <= |s| && t == s[|s| - |t|..]
    ensures |t| == |s| || s[|s| - |t| - 1] == '/'
  {
    if |s| == 0 || s[|s| - 1] == '/' then ""
    else LastSegment(s[..|s| - 1]) + [s[|s| - 1]]
  }

  /** `basename(p, suffix)`: the last path component, with `suffix` cut
      off when the component ends with it and is longer than it. */
  function Basename(p: string, suffix: string): (b: string)
    ensures '/' !in b
    ensures var seg := LastSegment(TrimSlashes(p));
      b == seg || (|b| > 0 && seg == b + suffix)
  {
    var seg := LastSegment(TrimSlashes(p));
    if |seg| > |suffix| && seg[|seg| - |suffix|..] == suffix then
      CutSuffix(seg, suffix);
      seg[..|seg| - |suffix|]
    else seg
  }

  /** Cutting a suffix off a slash-free name leaves a slash-free name. */
  lemma CutSuffix(seg: string, suffix: string)
    requires '/' !in seg && |seg| > |suffix| && seg[|seg| - |suffix|..] == suffix
    ensures '/' !in seg[..|seg| - |suffix|]
    ensures seg == seg[..|seg| - |suffix|] + suffix
  {
    var b := seg[..|seg| - |suffix|];
    assert forall k :: 0 <= k < |b| ==> b[k] == seg[k];
  }

  lemma {:induction false} LastSegmentAfterSlash(dir: string, name: string)
    requires '/' !in name
    ensures LastSegment(dir + "/" + name) == name
    decreases |name|
  {
    var s := dir + "/" + name;
    if |name| == 0 {
      assert s[|s| - 1] == '/';
    } else {
      var init := name[..|name| - 1];
      assert s[..|s| - 1] == dir + "/" + init;
      assert '/' !in init by {
        forall k | 0 <= k < |init| ensures init[k] != '/' { assert init[k] == name[k]; }
      }
      LastSegmentAfterSlash(dir, init);
      assert name == init + [name[|name| - 1]];
    }
  }

  /** Appending a slash-free suffix to a slash-free name gives a
      slash-free name. */
  lemma NoSlashInConcat(name: string, suffix: string)
    requires '/' !in name && '/' !in suffix
    ensures '/' !in name + suffix
  {
    var seg := name + suffix;
    forall k | 0 <= k < |seg| ensures seg[k] != '/' {
      if k < |name| { assert seg[k] == name[k]; } else { assert seg[k] == suffix[k - |name|]; }
    }
  }

  /** Once the last segment is known, `basename` only cuts the suffix. */
  lemma BasenameOfSegment(p: string, name: string, suffix: string)
    requires |name| > 0 && LastSegment(TrimSlashes(p)) == name + suffix
    ensures Basename(p, suffix) == name
  {
    var seg := name + suffix;
    assert seg[|seg| - |suffix|..] == suffix;
    assert seg[..|seg| - |suffix|] == name;
  }

  /** The identifier a controller file yields: `basename` of
      `dir/name.php` with suffix `.php` is `name`. */
  lemma BasenameOfFile(dir: string, name: string, suffix: string)
    requires |name| > 0 && '/' !in name && '/' !in suffix
    ensures Basename(dir + "/" + name + suffix, suffix) == name
  {
    var seg := name + suffix;
    var p := dir + "/" + seg;
    assert dir + "/" + name + suffix == p;
    NoSlashInConcat(name, suffix);
    assert p[|p| - 1] == seg[|seg| - 1];
    assert TrimSlashes(p) == p;
    LastSegmentAfterSlash(dir, seg);
    BasenameOfSegment(p, name, suffix);
  }
}
