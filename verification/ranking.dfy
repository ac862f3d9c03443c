/** The ranking of `/streams`: the `sort_key` closure and Python's stable
    `sorted` over the stream records. */
module Ranking {
  import opened Options
  import opened Numerals
  import opened Strings
  import opened Streams

  /** (progressive priority, type priority, resolution part, bitrate part);
      smaller sorts first. */
  type RankKey = (int, int, int, int)

  /** The number in a suffixed text such as "720p" or "128kbps": the prefix
      before `suffix` read by `int()`, or 0 when the text is absent, does
      not end with `suffix`, or has a prefix `int()` rejects. */
  function ParseSuffixed(text: Option<string>, suffix: string): (n: int)
    requires |suffix| > 0
    ensures text.None? ==> n == 0
    ensures text.Some? && !EndsWith(text.value, suffix) ==> n == 0
    ensures text.Some? && EndsWith(text.value, suffix) ==>
              (!IsIntegerText(text.value[..|text.value| - |suffix|]) ==> n == 0)
  {
    match text
    case None => 0
    case Some(t) =>
      if |t| > 0 && EndsWith(t, suffix) then ParseInt(t[..|t| - |suffix|]).GetOr(0) else 0
  }

  /** `resolution_num` of `sort_key`. */
  function Resolution(s: StreamRecord): int {
    ParseSuffixed(s.resolution, "p")
  }

  /** `abr_num` of `sort_key`. */
  function Bitrate(s: StreamRecord): int {
    ParseSuffixed(s.abr, "kbps")
  }

  /** `sort_key(s)`. */
  function Key(s: StreamRecord): RankKey {
    var progPriority := if IsProgressive(s) then 0 else 1;
    var typePriority := if HasKind(s, "video") then 0 else 1;
    if HasKind(s, "video") && !IsProgressive(s) then
      (progPriority, typePriority, -Resolution(s), 0)
    else if HasKind(s, "audio") && !IsProgressive(s) then
      (progPriority, typePriority, 0, -Bitrate(s))
    else
      (progPriority, typePriority, -Resolution(s), -Bitrate(s))
  }

  /** What each component of the key records. */
  lemma KeyParts(s: StreamRecord)
    ensures Key(s).0 == (if IsProgressive(s) then 0 else 1)
    ensures Key(s).1 == (if HasKind(s, "video") then 0 else 1)
    ensures IsVideoOnly(s) ==> Key(s).2 == -Resolution(s) && Key(s).3 == 0
    ensures IsAudioOnly(s) ==> Key(s).2 == 0 && Key(s).3 == -Bitrate(s)
    ensures !IsVideoOnly(s) && !IsAudioOnly(s) ==>
              Key(s).2 == -Resolution(s) && Key(s).3 == -Bitrate(s)
  {
  }

  /** Python's lexicographic `<=` on 4-tuples. */
  predicate KeyLe(a: RankKey, b: RankKey) {
    || a.0 < b.0
    || (a.0 == b.0 && a.1 < b.1)
    || (a.0 == b.0 && a.1 == b.1 && a.2 < b.2)
    || (a.0 == b.0 && a.1 == b.1 && a.2 == b.2 && a.3 <= b.3)
  }

  predicate Sorted(s: seq<StreamRecord>) {
    forall i, j :: 0 <= i < j < |s| ==> KeyLe(Key(s[i]), Key(s[j]))
  }

  /** The records of `s` whose key is `k`, in their order in `s`. */
  function WithKey(s: seq<StreamRecord>, k: RankKey): seq<StreamRecord>
    decreases |s|
  {
    if |s| == 0 then []
    else (if Key(s[0]) == k then [s[0]] else []) + WithKey(s[1..], k)
  }

  /** `r` is what a stable sort of `s` by `Key` may return: ordered by key,
      and for every key the records carrying it appear in `r` in exactly
      the order they had in `s`. */
  ghost predicate IsStableSortOf(r: seq<StreamRecord>, s: seq<StreamRecord>) {
    Sorted(r) && forall k :: WithKey(r, k) == WithKey(s, k)
  }

  lemma WithKeyCons(y: StreamRecord, t: seq<StreamRecord>)
    ensures forall k :: WithKey([y] + t, k) == (if Key(y) == k then [y] else []) + WithKey(t, k)
  {
    assert ([y] + t)[1..] == t;
  }

  lemma SortedCons(y: StreamRecord, t: seq<StreamRecord>)
    requires Sorted(t)
    requires forall i :: 0 <= i < |t| ==> KeyLe(Key(y), Key(t[i]))
    ensures Sorted([y] + t)
  {
  }

  lemma MembersOfInsertion(r: seq<StreamRecord>, t: seq<StreamRecord>, x: StreamRecord)
    requires multiset(r) == multiset(t) + multiset{x}
    ensures forall i :: 0 <= i < |r| ==> r[i] == x || r[i] in t
  {
    forall i | 0 <= i < |r|
      ensures r[i] == x || r[i] in t
    {
      assert r[i] in multiset(r);
    }
  }

  /** Inserts `x` in front of the first record whose key is not below its
      own, keeping `x` ahead of records with an equal key. */
  function Insert(x: StreamRecord, s: seq<StreamRecord>): (r: seq<StreamRecord>)
    requires Sorted(s)
    ensures Sorted(r)
    ensures multiset(r) == multiset(s) + multiset{x}
    ensures forall k :: WithKey(r, k) == if Key(x) == k then [x] + WithKey(s, k) else WithKey(s, k)
    decreases |s|
  {
    if |s| == 0 then
      WithKeyCons(x, []);
      [x]
    else if KeyLe(Key(x), Key(s[0])) then
      WithKeyCons(x, s);
      SortedCons(x, s);
      [x] + s
    else
      var rest := Insert(x, s[1..]);
      InsertBehind(x, s, rest);
      [s[0]] + rest
  }

  /** The recursive case of `Insert`: `x` goes behind `s[0]`. */
  lemma InsertBehind(x: StreamRecord, s: seq<StreamRecord>, rest: seq<StreamRecord>)
    requires Sorted(s) && |s| > 0 && !KeyLe(Key(x), Key(s[0]))
    requires Sorted(rest)
    requires multiset(rest) == multiset(s[1..]) + multiset{x}
    requires forall k :: WithKey(rest, k) == if Key(x) == k then [x] + WithKey(s[1..], k) else WithKey(s[1..], k)
    ensures Sorted([s[0]] + rest)
    ensures multiset([s[0]] + rest) == multiset(s) + multiset{x}
    ensures forall k :: WithKey([s[0]] + rest, k) == if Key(x) == k then [x] + WithKey(s, k) else WithKey(s, k)
  {
    InsertBehindSorted(x, s, rest);
    assert s == [s[0]] + s[1..];
    InsertBehindGroups(x, s, rest);
  }

  lemma InsertBehindSorted(x: StreamRecord, s: seq<StreamRecord>, rest: seq<StreamRecord>)
    requires Sorted(s) && |s| > 0 && !KeyLe(Key(x), Key(s[0]))
    requires Sorted(rest)
    requires multiset(rest) == multiset(s[1..]) + multiset{x}
    ensures Sorted([s[0]] + rest)
  {
    MembersOfInsertion(rest, s[1..], x);
    forall i | 0 <= i < |rest|
      ensures KeyLe(Key(s[0]), Key(rest[i]))
    {
      if rest[i] != x {
        var j :| 0 <= j < |s[1..]| && s[1..][j] == rest[i];
        assert s[j + 1] == rest[i];
      }
    }
    SortedCons(s[0], rest);
  }

  lemma InsertBehindGroups(x: StreamRecord, s: seq<StreamRecord>, rest: seq<StreamRecord>)
    requires |s| > 0 && Key(x) != Key(s[0])
    requires forall k :: WithKey(rest, k) == if Key(x) == k then [x] + WithKey(s[1..], k) else WithKey(s[1..], k)
    ensures forall k :: WithKey([s[0]] + rest, k) == if Key(x) == k then [x] + WithKey(s, k) else WithKey(s, k)
  {
    WithKeyCons(s[0], rest);
    forall k
      ensures WithKey([s[0]] + rest, k) == if Key(x) == k then [x] + WithKey(s, k) else WithKey(s, k)
    {
      var tail := WithKey(s[1..], k);
      if Key(x) == k {
        assert WithKey(s, k) == tail;
        assert WithKey([s[0]] + rest, k) == WithKey(rest, k);
      } else if Key(s[0]) == k {
        assert WithKey(s, k) == [s[0]] + tail;
        assert WithKey([s[0]] + rest, k) == [s[0]] + WithKey(rest, k);
      } else {
        assert WithKey(s, k) == tail;
        assert WithKey([s[0]] + rest, k) == WithKey(rest, k);
      }
    }
  }

  /** `sorted(streams, key=sort_key)`: a stable insertion sort. */
  function Rank(s: seq<StreamRecord>): (r: seq<StreamRecord>)
    ensures Sorted(r)
    ensures multiset(r) == multiset(s)
    ensures forall k :: WithKey(r, k) == WithKey(s, k)
    decreases |s|
  {
    if |s| == 0 then []
    else
      assert s == [s[0]] + s[1..];
      Insert(s[0], Rank(s[1..]))
  }

  /** A suffixed number written the way the provider writes it ("720p",
      "128kbps") is read back exactly. */
  lemma ParseSuffixedRoundTrip(n: int, suffix: string)
    requires |suffix| > 0
    ensures ParseSuffixed(Some(DecimalText(n) + suffix), suffix) == n
  {
    var t := DecimalText(n) + suffix;
    assert t[..|t| - |suffix|] == DecimalText(n);
    assert t[|t| - |suffix|..] == suffix;
    DecimalRoundTrip(n);
  }

  lemma WithKeyMembers(s: seq<StreamRecord>, k: RankKey)
    ensures forall y :: y in WithKey(s, k) ==> y in s && Key(y) == k
    decreases |s|
  {
    if |s| > 0 {
      WithKeyMembers(s[1..], k);
    }
  }

  /** A non-empty sequence has a non-empty group for its first key. */
  lemma FirstKeyGroup(u: seq<StreamRecord>)
    requires |u| > 0
    ensures WithKey(u, Key(u[0])) == [u[0]] + WithKey(u[1..], Key(u[0]))
  {
  }

  /** In a key-ordered sequence the first record has the least key. */
  lemma HeadIsLeast(t: seq<StreamRecord>, y: StreamRecord)
    requires Sorted(t) && y in t
    ensures KeyLe(Key(t[0]), Key(y))
  {
    var j :| 0 <= j < |t| && t[j] == y;
    if j > 0 {
      assert KeyLe(Key(t[0]), Key(t[j]));
    }
  }

  /** If `t` holds a record with the key of `r`'s head, `t`'s head key is
      not above it. */
  lemma HeadKeyBound(r: seq<StreamRecord>, t: seq<StreamRecord>)
    requires Sorted(t) && |r| > 0
    requires WithKey(r, Key(r[0])) == WithKey(t, Key(r[0]))
    ensures |t| > 0 && KeyLe(Key(t[0]), Key(r[0]))
  {
    var k := Key(r[0]);
    FirstKeyGroup(r);
    WithKeyMembers(t, k);
    var y := WithKey(t, k)[0];
    assert y in WithKey(t, k);
    HeadIsLeast(t, y);
  }

  /** Two key-ordered sequences that agree on every key group start with
      the same record. */
  lemma SameHead(r: seq<StreamRecord>, t: seq<StreamRecord>)
    requires Sorted(r) && Sorted(t) && |r| > 0 && |t| > 0
    requires forall k :: WithKey(r, k) == WithKey(t, k)
    ensures r[0] == t[0]
  {
    HeadKeyBound(r, t);
    HeadKeyBound(t, r);
    var k := Key(r[0]);
    assert Key(t[0]) == k;
    FirstKeyGroup(r);
    FirstKeyGroup(t);
    assert WithKey(r, k)[0] == r[0];
    assert WithKey(t, k)[0] == t[0];
  }

  /** Removing the same first record leaves sequences that still agree on
      every key group. */
  lemma SameTailGroups(r: seq<StreamRecord>, t: seq<StreamRecord>)
    requires |r| > 0 && |t| > 0 && r[0] == t[0]
    requires forall k :: WithKey(r, k) == WithKey(t, k)
    ensures forall k :: WithKey(r[1..], k) == WithKey(t[1..], k)
  {
    forall k
      ensures WithKey(r[1..], k) == WithKey(t[1..], k)
    {
      var a, b := WithKey(r[1..], k), WithKey(t[1..], k);
      if Key(r[0]) == k {
        assert WithKey(r, k) == [r[0]] + a;
        assert WithKey(t, k) == [r[0]] + b;
        assert a == ([r[0]] + a)[1..];
        assert b == ([r[0]] + b)[1..];
      } else {
        assert WithKey(r, k) == a;
        assert WithKey(t, k) == b;
      }
    }
  }

  /** A stable sort is unique: two key-ordered sequences that agree, key by
      key, on the order of their records are equal. */
  lemma {:induction false} StableSortUnique(r: seq<StreamRecord>, t: seq<StreamRecord>)
    requires Sorted(r) && Sorted(t)
    requires forall k :: WithKey(r, k) == WithKey(t, k)
    ensures r == t
    decreases |r|
  {
    if |r| > 0 && |t| > 0 {
      SameHead(r, t);
      SameTailGroups(r, t);
      StableSortUnique(r[1..], t[1..]);
      assert r == [r[0]] + r[1..];
      assert t == [t[0]] + t[1..];
    } else if |r| > 0 {
      FirstKeyGroup(r);
    } else if |t| > 0 {
      FirstKeyGroup(t);
    }
  }

  /** `Rank(s)` is exactly the stable sort of `s` by `sort_key`: it is one,
      and it is the only one. */
  lemma RankIsTheStableSort(s: seq<StreamRecord>, r: seq<StreamRecord>)
    ensures IsStableSortOf(r, s) <==> r == Rank(s)
  {
    if IsStableSortOf(r, s) {
      StableSortUnique(r, Rank(s));
    }
  }

  /** In a key-ordered sequence an earlier record's key is never above a
      later one's. */
  lemma OrderedAt(r: seq<StreamRecord>, i: int, j: int)
    requires Sorted(r) && 0 <= i < j < |r|
    ensures KeyLe(Key(r[i]), Key(r[j]))
  {
  }

  lemma ProgressiveKeyBelow(a: StreamRecord, b: StreamRecord)
    requires IsProgressive(a) && !IsProgressive(b)
    ensures !KeyLe(Key(b), Key(a))
  {
    KeyParts(a);
    KeyParts(b);
  }

  lemma VideoKeyBelow(a: StreamRecord, b: StreamRecord)
    requires !IsProgressive(a) && !IsProgressive(b) && HasKind(a, "video") && !HasKind(b, "video")
    ensures !KeyLe(Key(b), Key(a))
  {
    KeyParts(a);
    KeyParts(b);
  }

  lemma ResolutionKeyOrder(a: StreamRecord, b: StreamRecord)
    requires IsVideoOnly(a) && IsVideoOnly(b) && KeyLe(Key(a), Key(b))
    ensures Resolution(a) >= Resolution(b)
  {
    KeyParts(a);
    KeyParts(b);
  }

  lemma BitrateKeyOrder(a: StreamRecord, b: StreamRecord)
    requires IsAudioOnly(a) && IsAudioOnly(b) && KeyLe(Key(a), Key(b))
    ensures Bitrate(a) >= Bitrate(b)
  {
    KeyParts(a);
    KeyParts(b);
  }

  /** Every progressive stream is ranked ahead of every other stream. */
  lemma ProgressiveFirst(s: seq<StreamRecord>)
    ensures var r := Rank(s);
      forall i, j :: 0 <= i < |r| && 0 <= j < |r| && IsProgressive(r[i]) && !IsProgressive(r[j]) ==> i < j
  {
    var r := Rank(s);
    forall i, j | 0 <= i < |r| && 0 <= j < |r| && IsProgressive(r[i]) && !IsProgressive(r[j])
      ensures i < j
    {
      ProgressiveKeyBelow(r[i], r[j]);
      if j < i {
        OrderedAt(r, j, i);
      }
    }
  }

  /** Among non-progressive streams, those of type "video" are ranked ahead
      of all others. */
  lemma VideoBeforeOtherTypes(s: seq<StreamRecord>)
    ensures var r := Rank(s);
      forall i, j ::
        (0 <= i < |r| && 0 <= j < |r| && !IsProgressive(r[i]) && !IsProgressive(r[j]) &&
         HasKind(r[i], "video") && !HasKind(r[j], "video")) ==> i < j
  {
    var r := Rank(s);
    forall i, j | 0 <= i < |r| && 0 <= j < |r| && !IsProgressive(r[i]) && !IsProgressive(r[j]) &&
                  HasKind(r[i], "video") && !HasKind(r[j], "video")
      ensures i < j
    {
      VideoKeyBelow(r[i], r[j]);
      if j < i {
        OrderedAt(r, j, i);
      }
    }
  }

  /** Video-only streams are ranked by descending resolution. */
  lemma VideoOnlyByResolution(s: seq<StreamRecord>)
    ensures var r := Rank(s);
      forall i, j :: 0 <= i < j < |r| && IsVideoOnly(r[i]) && IsVideoOnly(r[j]) ==>
        Resolution(r[i]) >= Resolution(r[j])
  {
    var r := Rank(s);
    forall i, j | 0 <= i < j < |r| && IsVideoOnly(r[i]) && IsVideoOnly(r[j])
      ensures Resolution(r[i]) >= Resolution(r[j])
    {
      OrderedAt(r, i, j);
      ResolutionKeyOrder(r[i], r[j]);
    }
  }

  /** Audio-only streams are ranked by descending bitrate. */
  lemma AudioOnlyByBitrate(s: seq<StreamRecord>)
    ensures var r := Rank(s);
      forall i, j :: 0 <= i < j < |r| && IsAudioOnly(r[i]) && IsAudioOnly(r[j]) ==>
        Bitrate(r[i]) >= Bitrate(r[j])
  {
    var r := Rank(s);
    forall i, j | 0 <= i < j < |r| && IsAudioOnly(r[i]) && IsAudioOnly(r[j])
      ensures Bitrate(r[i]) >= Bitrate(r[j])
    {
      OrderedAt(r, i, j);
      BitrateKeyOrder(r[i], r[j]);
    }
  }

  lemma BothKeyOrder(a: StreamRecord, b: StreamRecord)
    requires IsProgressive(a) && IsProgressive(b) && a.kind == b.kind && KeyLe(Key(a), Key(b))
    ensures Resolution(a) > Resolution(b) || (Resolution(a) == Resolution(b) && Bitrate(a) >= Bitrate(b))
  {
    KeyParts(a);
    KeyParts(b);
  }

  /** Progressive variants of the same type are ranked by descending
      resolution, and those of equal resolution by descending bitrate. */
  lemma ProgressiveByResolutionThenBitrate(s: seq<StreamRecord>)
    ensures var r := Rank(s);
      forall i, j :: 0 <= i < j < |r| && IsProgressive(r[i]) && IsProgressive(r[j]) && r[i].kind == r[j].kind ==>
        Resolution(r[i]) > Resolution(r[j]) ||
        (Resolution(r[i]) == Resolution(r[j]) && Bitrate(r[i]) >= Bitrate(r[j]))
  {
    var r := Rank(s);
    forall i, j | 0 <= i < j < |r| && IsProgressive(r[i]) && IsProgressive(r[j]) && r[i].kind == r[j].kind
      ensures Resolution(r[i]) > Resolution(r[j]) ||
              (Resolution(r[i]) == Resolution(r[j]) && Bitrate(r[i]) >= Bitrate(r[j]))
    {
      OrderedAt(r, i, j);
      BothKeyOrder(r[i], r[j]);
    }
  }

  /** The bitrate plays no part in ranking video-only streams, nor the
      resolution in ranking audio-only ones: such streams tie, and so keep
      their input order, as soon as their resolutions (bitrates) agree. */
  lemma UnusedComponentsTie(a: StreamRecord, b: StreamRecord)
    ensures IsVideoOnly(a) && IsVideoOnly(b) ==> (Key(a) == Key(b) <==> Resolution(a) == Resolution(b))
    ensures IsAudioOnly(a) && IsAudioOnly(b) ==> (Key(a) == Key(b) <==> Bitrate(a) == Bitrate(b))
  {
    KeyParts(a);
    KeyParts(b);
  }
}
