/** `replace_text` of the intelligence service (`tempr_services/src/intelligence.rs`): bring a mirror
    buffer to a new text with one minimal replacement. */
module MirrorText {
  import opened Buffers
  import opened EditBatch
  import opened Utf8
  import opened Wrappers

  /** The first `k` bytes agree. */
  ghost predicate SamePrefix(a: Text, b: Text, k: nat) {
    k <= |a| && k <= |b| && a[..k] == b[..k]
  }

  /** The last `k` bytes agree. */
  ghost predicate SameSuffix(a: Text, b: Text, k: nat) {
    k <= |a| && k <= |b| && a[|a| - k..] == b[|b| - k..]
  }

  lemma GrowPrefix(a: Text, b: Text, k: nat)
    requires SamePrefix(a, b, k) && k < |a| && k < |b| && a[k] == b[k]
    ensures SamePrefix(a, b, k + 1)
  {
    assert a[..k + 1] == a[..k] + [a[k]] && b[..k + 1] == b[..k] + [b[k]];
  }

  lemma ShrinkPrefix(a: Text, b: Text, k: nat)
    requires SamePrefix(a, b, k) && k > 0
    ensures SamePrefix(a, b, k - 1)
  {
    assert a[..k][..k - 1] == a[..k - 1] && b[..k][..k - 1] == b[..k - 1];
  }

  lemma GrowSuffix(a: Text, b: Text, k: nat)
    requires SameSuffix(a, b, k) && k < |a| && k < |b| && a[|a| - 1 - k] == b[|b| - 1 - k]
    ensures SameSuffix(a, b, k + 1)
  {
    assert a[|a| - (k + 1)..] == [a[|a| - 1 - k]] + a[|a| - k..];
    assert b[|b| - (k + 1)..] == [b[|b| - 1 - k]] + b[|b| - k..];
  }

  lemma ShrinkSuffix(a: Text, b: Text, k: nat)
    requires SameSuffix(a, b, k) && k > 0
    ensures SameSuffix(a, b, k - 1)
  {
    assert a[|a| - k..][1..] == a[|a| - (k - 1)..] && b[|b| - k..][1..] == b[|b| - (k - 1)..];
  }

  /** Replacing what differs between a shared prefix and a shared suffix gives the other text. */
  lemma MiddleReplaced(old_: Text, next: Text, p: nat, s: nat, e: Edit)
    requires SamePrefix(old_, next, p) && SameSuffix(old_, next, s)
    requires p + s <= |old_| && p + s <= |next|
    requires e == Edit(p, |old_| - s, next[p..|next| - s])
    ensures Simultaneous(old_, [e], 0) == next
  {
    SingleEdit(old_, e);
    Reassembled(old_, next, p, s, e, Simultaneous(old_, [e], 0));
  }

  lemma SingleEdit(t: Text, e: Edit)
    requires e.InText(t)
    ensures Simultaneous(t, [e], 0) == t[0..e.start] + (e.text + t[e.end..])
  {
    assert [e] + [] == [e];
    LowestEdit(t, e, [], 0);
    CopyRest(t, e.end);
  }

  lemma Reassembled(old_: Text, next: Text, p: nat, s: nat, e: Edit, r: Text)
    requires SamePrefix(old_, next, p) && SameSuffix(old_, next, s)
    requires p + s <= |old_| && p + s <= |next|
    requires e == Edit(p, |old_| - s, next[p..|next| - s])
    requires r == old_[0..e.start] + (e.text + old_[e.end..])
    ensures r == next
  {
    assert old_[0..p] == next[..p] && old_[|old_| - s..] == next[|next| - s..];
    assert next == next[..p] + (next[p..|next| - s] + next[|next| - s..]);
  }

  /** Both counting loops: a common prefix and a common suffix, cut back to character boundaries of both
      texts, that do not overlap in the shorter text. */
  method CommonEnds(old_: Text, next: Text) returns (prefix: nat, suffix: nat)
    ensures SamePrefix(old_, next, prefix) && SameSuffix(old_, next, suffix)
    ensures prefix + suffix <= |old_| && prefix + suffix <= |next|
    ensures Boundary(old_, prefix) && Boundary(next, prefix)
    ensures Boundary(old_, |old_| - suffix) && Boundary(next, |next| - suffix)
  {
    var max := if |old_| < |next| then |old_| else |next|;
    prefix := 0;
    while prefix < max && old_[prefix] == next[prefix]
      invariant prefix <= max && SamePrefix(old_, next, prefix)
    {
      GrowPrefix(old_, next, prefix);
      prefix := prefix + 1;
    }
    while prefix > 0 && (!Boundary(old_, prefix) || !Boundary(next, prefix))
      invariant prefix <= max && SamePrefix(old_, next, prefix)
    {
      ShrinkPrefix(old_, next, prefix);
      prefix := prefix - 1;
    }
    var maxSuffix := max - prefix;
    suffix := 0;
    while suffix < maxSuffix && old_[|old_| - 1 - suffix] == next[|next| - 1 - suffix]
      invariant suffix <= maxSuffix && SameSuffix(old_, next, suffix)
    {
      GrowSuffix(old_, next, suffix);
      suffix := suffix + 1;
    }
    while suffix > 0 && (!Boundary(old_, |old_| - suffix) || !Boundary(next, |next| - suffix))
      invariant suffix <= maxSuffix && SameSuffix(old_, next, suffix)
    {
      ShrinkSuffix(old_, next, suffix);
      suffix := suffix - 1;
    }
  }

  /** `replace_text`: for every pair of valid texts the buffer ends up holding `next`, the edit is never
      refused, and the early return for crossed ends is never taken with the texts still different. */
  method ReplaceText(b: Buffer, next: Text) returns (r: Result<(), EditError>)
    requires b.Valid() && ValidUtf8(next)
    modifies b, b.source
    ensures b.Valid()
    ensures r.Ok? && b.text == next
    ensures old(b.text) == next ==> b.Same()
    ensures old(b.text) != next ==> b.timeline == old(b.timeline).Record(next, Entry(old(b.nextEdit), None))
  {
    var was := b.text;
    if was == next { return Ok(()); }
    var prefix, suffix := CommonEnds(was, next);
    var oldEnd, newEnd := |was| - suffix, |next| - suffix;
    if prefix > oldEnd || prefix > newEnd {
      assert false;
    }
    ValidSlice(next, prefix, newEnd);
    var e := Edit(prefix, oldEnd, next[prefix..newEnd]);
    MiddleReplaced(was, next, prefix, suffix, e);
    r := EditOnce(b, e, next);
  }

  /** A single valid replacement is always accepted. */
  method EditOnce(b: Buffer, e: Edit, ghost next: Text) returns (r: Result<(), EditError>)
    requires b.Valid() && ValidUtf8(e.text) && ValidRange(b.text, e.start, e.end)
    requires Simultaneous(b.text, [e], 0) == next != b.text
    modifies b, b.source
    ensures b.Valid()
    ensures r.Ok? && b.text == next
    ensures b.timeline == old(b.timeline).Record(next, Entry(old(b.nextEdit), None))
  {
    var edits := [e];
    assert forall x :: x in edits ==> x == e;
    var edit := b.EditPlain(edits);
    r := match edit case Err(x) => Err(x) case Ok(_) => Ok(());
  }
}
