/** Listings (internal/s3api/handler.go). */
module Pagination {
  import opened Sorting
  import opened Strings
  import opened Wrappers

  // Listing objects page by page (listObjectsV2, over ListObjects in internal/files/service.go).

  const DELIMITER := '/'

  /** `token` resumes the listing. */
  datatype Page = Page(contents: seq<string>, prefixes: seq<string>, truncated: bool, token: Option<string>)

  datatype Response = Listed(page: Page) | NotImplemented | InvalidArgument

  /** A number given as text. */
  datatype Number = Absent | Malformed | Value(value: int)

  datatype Query = Query(prefix: string, delimiter: string, maxKeys: Number, continuation: string, startAfter: string,
                         encodingType: string)

  /** The text forms of tokens (base64) and of keys (URL escapes). */
  datatype Codec = Codec(encode: string -> string, decode: string -> Option<string>, escape: string -> string)

  /** The common prefix a key is rolled up into, if it is. */
  function Display(key: string, prefix: string, delimited: bool): Option<string>
  {
    if !delimited || !(prefix <= key) then None
    else match IndexOf(key[|prefix|..], DELIMITER)
      case None => None
      case Some(i) => Some(prefix + key[|prefix|..][..i + 1])
  }

  /** What a key is rolled up into: itself up to and with the first delimiter past the prefix. */
  predicate RollsUp(key: string, prefix: string, name: string, rest: string) {
    DELIMITER !in name && key == prefix + name + "/" + rest
  }

  ghost predicate RolledInto(key: string, prefix: string, delimited: bool, p: string) {
    delimited && exists name, rest :: RollsUp(key, prefix, name, rest) && p == prefix + name + "/"
  }

  lemma DisplayOfParts(prefix: string, name: string, rest: string)
    requires DELIMITER !in name
    ensures Display(prefix + name + "/" + rest, prefix, true) == Some(prefix + name + "/")
    ensures Display(prefix + name, prefix, true) == None
  {
    var key := prefix + name + "/" + rest;
    var tail := key[|prefix|..];
    assert key[..|prefix|] == prefix && tail == name + "/" + rest;
    IndexOfFirst(name, DELIMITER, rest);
    var i := |name|;
    assert prefix + tail[..i + 1] == prefix + name + "/";
    assert (prefix + name)[|prefix|..] == name;
  }

  lemma DisplayHasParts(key: string, prefix: string)
    requires Display(key, prefix, true).Some?
    ensures RolledInto(key, prefix, true, Display(key, prefix, true).value)
  {
    var tail := key[|prefix|..];
    var i := IndexOf(tail, DELIMITER).value;
    var name, rest := tail[..i], tail[i + 1..];
    CutAt(tail, i);
    Regroup(prefix, name, rest);
    assert key == prefix + tail;
    assert RollsUp(key, prefix, name, rest);
  }

  lemma CutAt(s: string, i: nat)
    requires i < |s| && s[i] == DELIMITER
    ensures s == s[..i] + "/" + s[i + 1..] && s[..i + 1] == s[..i] + "/"
  {
  }

  lemma Regroup(prefix: string, name: string, rest: string)
    ensures prefix + (name + "/" + rest) == prefix + name + "/" + rest && prefix + (name + "/") == prefix + name + "/"
  {
  }

  lemma DisplayExactly(key: string, prefix: string, delimited: bool, p: string)
    ensures Display(key, prefix, delimited) == Some(p) <==> RolledInto(key, prefix, delimited, p)
  {
    if Display(key, prefix, delimited) == Some(p) {
      DisplayHasParts(key, prefix);
    }
    if RolledInto(key, prefix, delimited, p) {
      var name, rest :| RollsUp(key, prefix, name, rest) && p == prefix + name + "/";
      DisplayOfParts(prefix, name, rest);
    }
  }

  // ------------------------------------------------------- the listing as a whole

  /** The keys past `after` with the prefix, in order. */
  function Matching(entries: seq<string>, after: string, prefix: string): seq<string> {
    if entries == [] then []
    else
      var rest := Matching(entries[1..], after, prefix);
      if Less(after, entries[0]) && prefix <= entries[0] then [entries[0]] + rest else rest
  }

  lemma {:induction false} MatchingExact(entries: seq<string>, after: string, prefix: string, k: string)
    ensures k in Matching(entries, after, prefix) <==> k in entries && Less(after, k) && prefix <= k
    decreases |entries|
  {
    if entries != [] {
      MatchingExact(entries[1..], after, prefix, k);
      assert k in entries <==> k == entries[0] || k in entries[1..];
    }
  }

  /** Every matching key that is not rolled up and whose object can be read. */
  function Objects(m: seq<string>, prefix: string, delimited: bool, unreadable: set<string>): seq<string>
  {
    if m == [] then []
    else
      var n := |m| - 1;
      Objects(m[..n], prefix, delimited, unreadable)
      + if Display(m[n], prefix, delimited).None? && m[n] !in unreadable then [m[n]] else []
  }

  /** Every common prefix of a matching key, once, in order of first appearance. */
  function CommonPrefixes(m: seq<string>, prefix: string, delimited: bool): seq<string>
  {
    if m == [] then []
    else
      var n := |m| - 1;
      var before := CommonPrefixes(m[..n], prefix, delimited);
      match Display(m[n], prefix, delimited)
      case None => before
      case Some(p) => if p in before then before else before + [p]
  }

  lemma {:induction false} CommonPrefixesMember(m: seq<string>, prefix: string, delimited: bool, p: string)
    ensures p in CommonPrefixes(m, prefix, delimited) <==> exists i :: 0 <= i < |m| && Display(m[i], prefix, delimited) == Some(p)
    decreases |m|
  {
    if m != [] {
      var n := |m| - 1;
      CommonPrefixesMember(m[..n], prefix, delimited, p);
      assert forall i :: 0 <= i < n ==> m[..n][i] == m[i];
    }
  }

  lemma {:induction false} CommonPrefixesDistinct(m: seq<string>, prefix: string, delimited: bool, i: nat, j: nat)
    requires i < j < |CommonPrefixes(m, prefix, delimited)|
    ensures CommonPrefixes(m, prefix, delimited)[i] != CommonPrefixes(m, prefix, delimited)[j]
    decreases |m|
  {
    var n := |m| - 1;
    var before := CommonPrefixes(m[..n], prefix, delimited);
    if j < |before| {
      CommonPrefixesDistinct(m[..n], prefix, delimited, i, j);
    } else {
      assert before[i] in before;
    }
  }

  /** The common prefixes are those that matching keys are rolled up into, each once. */
  lemma CommonPrefixesExact(m: seq<string>, prefix: string, delimited: bool)
    ensures var r := CommonPrefixes(m, prefix, delimited);
            && (forall p :: p in r <==> exists i :: 0 <= i < |m| && RolledInto(m[i], prefix, delimited, p))
            && (forall i, j :: 0 <= i < j < |r| ==> r[i] != r[j])
  {
    CommonPrefixesByDisplay(m, prefix, delimited);
    forall i, p | 0 <= i < |m| ensures Display(m[i], prefix, delimited) == Some(p) <==> RolledInto(m[i], prefix, delimited, p) {
      DisplayExactly(m[i], prefix, delimited, p);
    }
  }

  lemma CommonPrefixesByDisplay(m: seq<string>, prefix: string, delimited: bool)
    ensures var r := CommonPrefixes(m, prefix, delimited);
            && (forall p :: p in r <==> exists i :: 0 <= i < |m| && Display(m[i], prefix, delimited) == Some(p))
            && (forall i, j :: 0 <= i < j < |r| ==> r[i] != r[j])
  {
    var r := CommonPrefixes(m, prefix, delimited);
    forall p ensures p in r <==> exists i :: 0 <= i < |m| && Display(m[i], prefix, delimited) == Some(p) {
      CommonPrefixesMember(m, prefix, delimited, p);
    }
    forall i, j | 0 <= i < j < |r| ensures r[i] != r[j] {
      CommonPrefixesDistinct(m, prefix, delimited, i, j);
    }
  }

  /** The objects are the matching keys that can be read and are not rolled up. */
  lemma ObjectsExact(m: seq<string>, prefix: string, delimited: bool, unreadable: set<string>, k: string)
    ensures k in Objects(m, prefix, delimited, unreadable) <==>
            k in m && k !in unreadable && forall p :: !RolledInto(k, prefix, delimited, p)
  {
    ObjectsMember(m, prefix, delimited, unreadable, k);
    forall p ensures Display(k, prefix, delimited) == Some(p) <==> RolledInto(k, prefix, delimited, p) {
      DisplayExactly(k, prefix, delimited, p);
    }
    var d := Display(k, prefix, delimited);
    assert d.Some? ==> RolledInto(k, prefix, delimited, d.value);
  }

  lemma {:induction false} ObjectsMember(m: seq<string>, prefix: string, delimited: bool, unreadable: set<string>, k: string)
    ensures k in Objects(m, prefix, delimited, unreadable) <==>
            k in m && Display(k, prefix, delimited).None? && k !in unreadable
    decreases |m|
  {
    if m != [] {
      var n := |m| - 1;
      ObjectsMember(m[..n], prefix, delimited, unreadable, k);
      assert m == m[..n] + [m[n]];
    }
  }

  /** The objects are the matching keys that are not rolled up and can be read, in order. */
  lemma {:induction false} ObjectsSorted(m: seq<string>, prefix: string, delimited: bool, unreadable: set<string>)
    requires StrictlySorted(Less, m)
    ensures StrictlySorted(Less, Objects(m, prefix, delimited, unreadable))
    decreases |m|
  {
    if m != [] {
      var n := |m| - 1;
      ObjectsSorted(m[..n], prefix, delimited, unreadable);
      var before := Objects(m[..n], prefix, delimited, unreadable);
      forall i | 0 <= i < |before| ensures Less(before[i], m[n]) {
        assert before[i] in before;
        ObjectsMember(m[..n], prefix, delimited, unreadable, before[i]);
      }
    }
  }

  // -------------------------------------------------------------- cutting a listing

  lemma {:induction false} ObjectsSplit(a: seq<string>, b: seq<string>, prefix: string, delimited: bool, unreadable: set<string>)
    ensures Objects(a + b, prefix, delimited, unreadable)
         == Objects(a, prefix, delimited, unreadable) + Objects(b, prefix, delimited, unreadable)
    decreases |b|
  {
    if b == [] {
      assert a + b == a;
    } else {
      var n := |b| - 1;
      assert (a + b)[..|a + b| - 1] == a + b[..n];
      ObjectsSplit(a, b[..n], prefix, delimited, unreadable);
    }
  }

  /** Two runs of keys that share no common prefix list theirs one after the other. */
  lemma {:induction false} PrefixesSplit(a: seq<string>, b: seq<string>, prefix: string, delimited: bool)
    requires forall x, y :: x in a && y in b && Display(y, prefix, delimited).Some? ==>
               Display(x, prefix, delimited) != Display(y, prefix, delimited)
    ensures CommonPrefixes(a + b, prefix, delimited)
         == CommonPrefixes(a, prefix, delimited) + CommonPrefixes(b, prefix, delimited)
    decreases |b|
  {
    if b == [] {
      assert a + b == a;
    } else {
      var n := |b| - 1;
      assert (a + b)[..|a + b| - 1] == a + b[..n];
      PrefixesSplit(a, b[..n], prefix, delimited);
      CommonPrefixesByDisplay(a, prefix, delimited);
    }
  }

  /** A key that begins with another key's common prefix is rolled up into it too. */
  lemma SamePrefixSameDisplay(key: string, other: string, prefix: string)
    requires prefix <= key && prefix <= other
    requires Display(key, prefix, true).Some? && Display(key, prefix, true).value <= other
    ensures Display(other, prefix, true) == Display(key, prefix, true)
  {
    var p := Display(key, prefix, true).value;
    var i := IndexOf(key[|prefix|..], DELIMITER).value;
    var rest := other[|prefix|..];
    assert p == prefix + key[|prefix|..][..i + 1];
    forall k | 0 <= k <= i ensures rest[k] == key[|prefix|..][k] {
      assert other[|prefix| + k] == p[|prefix| + k];
    }
    assert rest[..i] == key[|prefix|..][..i];
    assert rest[..i + 1] == key[|prefix|..][..i + 1];
  }

  /** Keys rolled up into one common prefix are neighbours in the listing. */
  lemma DisplayIsContiguous(a: string, b: string, c: string, prefix: string, delimited: bool)
    requires prefix <= a && prefix <= b && prefix <= c && Less(a, b) && Less(b, c)
    requires Display(a, prefix, delimited).Some? && Display(a, prefix, delimited) == Display(c, prefix, delimited)
    ensures Display(b, prefix, delimited) == Display(a, prefix, delimited)
  {
    var p := Display(a, prefix, delimited).value;
    PrefixIsContiguous(p, a, b, c);
    SamePrefixSameDisplay(a, b, prefix);
  }

  /** Where a page may end: the next key is not rolled up into a common prefix listed before. */
  predicate Boundary(m: seq<string>, j: nat, prefix: string, delimited: bool)
    requires j < |m|
  {
    var d := Display(m[j], prefix, delimited);
    d.Some? ==> forall i :: 0 <= i < j ==> Display(m[i], prefix, delimited) != d
  }

  /** At a boundary nothing later is rolled up into an earlier common prefix, so the listing cuts
      cleanly in two. */
  lemma CutAtBoundary(m: seq<string>, j: nat, prefix: string, delimited: bool, unreadable: set<string>)
    requires StrictlySorted(Less, m) && j < |m| && Boundary(m, j, prefix, delimited)
    requires forall k <- m :: prefix <= k
    ensures Objects(m, prefix, delimited, unreadable)
         == Objects(m[..j], prefix, delimited, unreadable) + Objects(m[j..], prefix, delimited, unreadable)
    ensures CommonPrefixes(m, prefix, delimited)
         == CommonPrefixes(m[..j], prefix, delimited) + CommonPrefixes(m[j..], prefix, delimited)
  {
    assert m == m[..j] + m[j..];
    ObjectsSplit(m[..j], m[j..], prefix, delimited, unreadable);
    forall x, y | x in m[..j] && y in m[j..] && Display(y, prefix, delimited).Some?
      ensures Display(x, prefix, delimited) != Display(y, prefix, delimited)
    {
      var a :| 0 <= a < j && m[a] == x;
      var c :| j <= c < |m| && m[c] == y;
      assert m[a] in m && m[j] in m && m[c] in m;
      NoReturn(m[a], m[j], m[c], prefix, delimited);
    }
    PrefixesSplit(m[..j], m[j..], prefix, delimited);
  }

  /** A common prefix that stopped does not come back. */
  lemma NoReturn(x: string, y: string, z: string, prefix: string, delimited: bool)
    requires prefix <= x && prefix <= y && prefix <= z && Less(x, y) && (y == z || Less(y, z))
    requires Display(y, prefix, delimited).Some? ==> Display(x, prefix, delimited) != Display(y, prefix, delimited)
    ensures Display(z, prefix, delimited).Some? ==> Display(x, prefix, delimited) != Display(z, prefix, delimited)
  {
    if y != z && Display(z, prefix, delimited).Some? && Display(x, prefix, delimited) == Display(z, prefix, delimited) {
      DisplayIsContiguous(x, y, z, prefix, delimited);
    }
  }

  /** Resuming after a key of the listing gives the rest of the listing. */
  lemma {:induction false} MatchingIsSorted(entries: seq<string>, after: string, prefix: string)
    requires StrictlySorted(Less, entries)
    ensures StrictlySorted(Less, Matching(entries, after, prefix))
    decreases |entries|
  {
    if entries != [] {
      MatchingIsSorted(entries[1..], after, prefix);
      var rest := Matching(entries[1..], after, prefix);
      forall i | 0 <= i < |rest| ensures Less(entries[0], rest[i]) {
        assert rest[i] in rest;
        MatchingExact(entries[1..], after, prefix, rest[i]);
        HeadIsLeast(entries, rest[i]);
      }
    }
  }

  lemma HeadIsLeast(entries: seq<string>, k: string)
    requires StrictlySorted(Less, entries) && entries != [] && k in entries[1..]
    ensures Less(entries[0], k) && !Less(k, entries[0])
  {
    var i :| 0 <= i < |entries| - 1 && entries[1..][i] == k;
    assert entries[i + 1] == k;
    LessIsStrict(entries[0], k);
  }

  lemma ResumeAtHead(entries: seq<string>, after: string, prefix: string)
    requires StrictlySorted(Less, entries) && entries != [] && Less(after, entries[0])
    ensures Matching(entries, entries[0], prefix) == Matching(entries[1..], after, prefix)
  {
    var head := entries[0];
    LessIsStrict(head, head);
    forall k | k in entries[1..] ensures Less(head, k) && Less(after, k) {
      HeadIsLeast(entries, k);
      LessIsTransitive(after, head, k);
    }
    AllLater(entries[1..], after, head, prefix);
  }

  lemma {:induction false} ResumeAfter(entries: seq<string>, after: string, prefix: string, j: nat)
    requires StrictlySorted(Less, entries) && 0 < j <= |Matching(entries, after, prefix)|
    ensures Matching(entries, Matching(entries, after, prefix)[j - 1], prefix) == Matching(entries, after, prefix)[j..]
    decreases |entries|
  {
    var m, rest := Matching(entries, after, prefix), Matching(entries[1..], after, prefix);
    var kept := Less(after, entries[0]) && prefix <= entries[0];
    if kept && j == 1 {
      ResumeAtHead(entries, after, prefix);
      assert m[1..] == rest;
    } else {
      var i := if kept then j - 1 else j;
      var last := rest[i - 1];
      assert last == m[j - 1] && m[j..] == rest[i..];
      ResumeAfter(entries[1..], after, prefix, i);
      assert last in rest;
      MatchingExact(entries[1..], after, prefix, last);
      HeadIsLeast(entries, last);
    }
  }

  /** Keys all past both bounds match alike. */
  lemma {:induction false} AllLater(entries: seq<string>, after: string, last: string, prefix: string)
    requires forall k <- entries :: Less(last, k) && Less(after, k)
    ensures Matching(entries, last, prefix) == Matching(entries, after, prefix)
    decreases |entries|
  {
    if entries != [] {
      AllLater(entries[1..], after, last, prefix);
    }
  }

  // ---------------------------------------------------------- the code, as run

  function Count(m: seq<string>, j: nat, prefix: string, delimited: bool, unreadable: set<string>): nat
    requires j <= |m|
  {
    |Objects(m[..j], prefix, delimited, unreadable)| + |CommonPrefixes(m[..j], prefix, delimited)|
  }

  /** Nowhere before `upTo` could a page of `maxKeys` entries have ended. */
  predicate FirstToFit(m: seq<string>, prefix: string, delimited: bool, maxKeys: nat, unreadable: set<string>, upTo: nat)
    requires upTo <= |m|
  {
    forall k :: 0 <= k < upTo && Boundary(m, k, prefix, delimited) ==> Count(m, k, prefix, delimited, unreadable) < maxKeys
  }

  /** What one page is: the first `upTo` matching keys, as many as fit. */
  ghost predicate IsPage(m: seq<string>, prefix: string, delimited: bool, maxKeys: nat, unreadable: set<string>,
                         page: Page, upTo: nat)
  {
    && upTo <= |m|
    && page.contents == Objects(m[..upTo], prefix, delimited, unreadable)
    && page.prefixes == CommonPrefixes(m[..upTo], prefix, delimited)
    && |page.contents| + |page.prefixes| <= maxKeys
    && FirstToFit(m, prefix, delimited, maxKeys, unreadable, upTo)
    && (page.truncated <==> upTo < |m|)
    && (page.truncated ==> |page.contents| + |page.prefixes| == maxKeys && Boundary(m, upTo, prefix, delimited))
    && page.token == if page.truncated && upTo > 0 then Some(m[upTo - 1]) else None
  }

  ghost predicate IsPageOf(m: seq<string>, prefix: string, delimited: bool, maxKeys: nat, unreadable: set<string>, page: Page) {
    exists upTo: nat :: IsPage(m, prefix, delimited, maxKeys, unreadable, page, upTo)
  }

  lemma EndsNoLater(m: seq<string>, prefix: string, delimited: bool, maxKeys: nat, unreadable: set<string>, page: Page, i: nat, j: nat)
    requires IsPage(m, prefix, delimited, maxKeys, unreadable, page, i)
    requires j <= |m| && FirstToFit(m, prefix, delimited, maxKeys, unreadable, j)
    ensures j <= i
  {
    assert i < |m| ==> Boundary(m, i, prefix, delimited) && Count(m, i, prefix, delimited, unreadable) == maxKeys;
  }

  /** There is exactly one such page (ListPage finds it). */
  lemma PageIsUnique(m: seq<string>, prefix: string, delimited: bool, maxKeys: nat, unreadable: set<string>, p: Page, q: Page)
    requires IsPageOf(m, prefix, delimited, maxKeys, unreadable, p) && IsPageOf(m, prefix, delimited, maxKeys, unreadable, q)
    ensures p == q
  {
    var i: nat :| IsPage(m, prefix, delimited, maxKeys, unreadable, p, i);
    var j: nat :| IsPage(m, prefix, delimited, maxKeys, unreadable, q, j);
    EndsNoLater(m, prefix, delimited, maxKeys, unreadable, p, i, j);
    EndsNoLater(m, prefix, delimited, maxKeys, unreadable, q, j, i);
  }

  /** A truncated page can be gone on from, unless no key was asked for: such a page is empty, and
      truncated exactly when some key matches. */
  lemma TokenExactly(m: seq<string>, prefix: string, delimited: bool, maxKeys: nat, unreadable: set<string>, page: Page)
    requires IsPageOf(m, prefix, delimited, maxKeys, unreadable, page)
    ensures page.truncated ==> (page.token.Some? <==> maxKeys >= 1)
    ensures !page.truncated ==> page.token.None?
    ensures maxKeys == 0 ==> page == Page([], [], m != [], None)
  {
    var upTo: nat :| IsPage(m, prefix, delimited, maxKeys, unreadable, page, upTo);
    if maxKeys == 0 && upTo > 0 {
      assert Boundary(m, 0, prefix, delimited);
    }
  }

  /** Keys of stored objects: distinct, sorted and never empty. */
  ghost predicate ValidKeys(entries: seq<string>) {
    StrictlySorted(Less, entries) && "" !in entries
  }

  /** The loop's next matching key, and what taking it adds to the page. */
  lemma Consume(m: seq<string>, upTo: nat, key: string, rest: seq<string>, prefix: string, delimited: bool, unreadable: set<string>)
    requires upTo <= |m| && m[upTo..] == [key] + rest
    ensures upTo < |m| && m[upTo] == key && m[upTo + 1..] == rest
    ensures Objects(m[..upTo + 1], prefix, delimited, unreadable) == Objects(m[..upTo], prefix, delimited, unreadable)
              + if Display(key, prefix, delimited).None? && key !in unreadable then [key] else []
    ensures var before := CommonPrefixes(m[..upTo], prefix, delimited); var d := Display(key, prefix, delimited);
            && CommonPrefixes(m[..upTo + 1], prefix, delimited)
               == (if d.Some? && d.value !in before then before + [d.value] else before)
            && (Boundary(m, upTo, prefix, delimited) <==> !(d.Some? && d.value in before))
  {
    assert m[upTo..][0] == m[upTo] && m[upTo..][1..] == m[upTo + 1..];
    assert m[..upTo + 1][..upTo] == m[..upTo];
    CommonPrefixesByDisplay(m[..upTo], prefix, delimited);
    assert forall i :: 0 <= i < upTo ==> m[..upTo][i] == m[i];
  }

  /** The page loop's variables. */
  datatype Collected = Collected(contents: seq<string>, prefixes: seq<string>, commonSeen: set<string>, keyCount: nat, lastConsumed: string)

  ghost predicate HasCollected(m: seq<string>, upTo: nat, prefix: string, delimited: bool, maxKeys: nat, unreadable: set<string>, c: Collected) {
    && upTo <= |m|
    && c.contents == Objects(m[..upTo], prefix, delimited, unreadable)
    && c.prefixes == CommonPrefixes(m[..upTo], prefix, delimited)
    && (forall p :: p in c.commonSeen <==> p in c.prefixes)
    && c.keyCount == |c.contents| + |c.prefixes| <= maxKeys
    && FirstToFit(m, prefix, delimited, maxKeys, unreadable, upTo)
    && c.lastConsumed == (if upTo > 0 then m[upTo - 1] else "")
  }

  /** The loop's body for a matching key: roll it up, stop, or take it. */
  method TakeKey(ghost m: seq<string>, ghost upTo: nat, key: string, ghost rest: seq<string>, prefix: string, delimited: bool,
                 maxKeys: nat, unreadable: set<string>, before: Collected)
      returns (c: Collected, more: bool)
    requires HasCollected(m, upTo, prefix, delimited, maxKeys, unreadable, before) && m[upTo..] == [key] + rest
    ensures more ==> c == before && upTo < |m| && Boundary(m, upTo, prefix, delimited) && before.keyCount == maxKeys
    ensures !more ==> HasCollected(m, upTo + 1, prefix, delimited, maxKeys, unreadable, c) && m[upTo + 1..] == rest
  {
    Consume(m, upTo, key, rest, prefix, delimited, unreadable);
    var display := Display(key, prefix, delimited);
    if display.Some? && display.value in before.commonSeen {
      return before.(lastConsumed := key), false;
    }
    if before.keyCount >= maxKeys {
      return before, true;
    }
    c, more := before.(lastConsumed := key), false;
    if display.Some? {
      c := c.(commonSeen := c.commonSeen + {display.value}, prefixes := c.prefixes + [display.value]);
    } else {
      if key in unreadable {
        return;
      }
      c := c.(contents := c.contents + [key]);
    }
    c := c.(keyCount := c.keyCount + 1);
  }

  /** The page loop.  `unreadable` are the objects whose entity tag cannot be computed, which the
      loop skips without counting them. */
  method ListPage(entries: seq<string>, after: string, prefix: string, delimited: bool, maxKeys: nat, unreadable: set<string>)
      returns (page: Page)
    requires ValidKeys(entries)
    ensures IsPageOf(Matching(entries, after, prefix), prefix, delimited, maxKeys, unreadable, page)
    ensures page.truncated ==> (page.token.Some? <==> maxKeys >= 1)
    ensures maxKeys == 0 ==> (page.truncated <==> Matching(entries, after, prefix) != [])
  {
    var c, more := Collected([], [], {}, 0, ""), false;
    ghost var m := Matching(entries, after, prefix);
    ghost var upTo: nat := 0;
    for i := 0 to |entries|
      invariant !more && HasCollected(m, upTo, prefix, delimited, maxKeys, unreadable, c)
      invariant m[upTo..] == Matching(entries[i..], after, prefix)
    {
      if !Less(after, entries[i]) || !(prefix <= entries[i]) {
        continue;
      }
      c, more := TakeKey(m, upTo, entries[i], Matching(entries[i + 1..], after, prefix), prefix, delimited, maxKeys, unreadable, c);
      if more {
        break;
      }
      upTo := upTo + 1;
    }
    if upTo > 0 {
      assert m[upTo - 1] in m;
      MatchingExact(entries, after, prefix, m[upTo - 1]);
    }
    page := Page(c.contents, c.prefixes, more, if more && c.lastConsumed != "" then Some(c.lastConsumed) else None);
    assert IsPage(m, prefix, delimited, maxKeys, unreadable, page, upTo);
    TokenExactly(m, prefix, delimited, maxKeys, unreadable, page);
  }

  function Escaped(keys: seq<string>, escape: string -> string): seq<string> {
    seq(|keys|, i requires 0 <= i < |keys| => escape(keys[i]))
  }

  /** A page as it is sent: its token encoded, and its keys escaped where that was asked for. */
  function Sent(page: Page, codec: Codec, escaped: bool): Page {
    Page(if escaped then Escaped(page.contents, codec.escape) else page.contents,
         if escaped then Escaped(page.prefixes, codec.escape) else page.prefixes,
         page.truncated,
         match page.token case None => None case Some(key) => Some(codec.encode(key)))
  }

  /** Sending keeps the number and order of the keys and escapes each of them or none. */
  lemma SentExactly(page: Page, codec: Codec, escaped: bool)
    ensures var sent := Sent(page, codec, escaped);
            && |sent.contents| == |page.contents| && |sent.prefixes| == |page.prefixes|
            && (forall i :: 0 <= i < |page.contents| ==>
                  sent.contents[i] == if escaped then codec.escape(page.contents[i]) else page.contents[i])
            && (forall i :: 0 <= i < |page.prefixes| ==>
                  sent.prefixes[i] == if escaped then codec.escape(page.prefixes[i]) else page.prefixes[i])
            && (sent.truncated <==> page.truncated) && (sent.token.Some? <==> page.token.Some?)
            && (page.token.Some? ==> sent.token.value == codec.encode(page.token.value))
  {
  }

  ghost predicate IsSentPage(m: seq<string>, prefix: string, delimited: bool, maxKeys: nat, unreadable: set<string>,
                             codec: Codec, escaped: bool, sent: Page)
  {
    exists page :: IsPageOf(m, prefix, delimited, maxKeys, unreadable, page) && sent == Sent(page, codec, escaped)
  }

  /** A request: its parameters are checked, a token takes the place of start-after, and the answer is
      the one page there is for them. */
  method ListObjectsV2(entries: seq<string>, query: Query, codec: Codec, unreadable: set<string>) returns (r: Response)
    requires ValidKeys(entries)
    ensures r.NotImplemented? <==> query.delimiter != "" && query.delimiter != "/"
    ensures r.InvalidArgument? <==>
              !r.NotImplemented?
              && (query.maxKeys.Malformed? || (query.maxKeys.Value? && query.maxKeys.value < 0)
                  || (query.continuation != "" && codec.decode(query.continuation).None?)
                  || (query.encodingType != "" && query.encodingType != "url"))
    ensures r.Listed? ==>
              var after := if query.continuation != "" then codec.decode(query.continuation).value else query.startAfter;
              var maxKeys := if query.maxKeys.Value? && query.maxKeys.value < 1000 then query.maxKeys.value else 1000;
              var m := Matching(entries, after, query.prefix);
              && IsSentPage(m, query.prefix, query.delimiter == "/", maxKeys, unreadable, codec, query.encodingType == "url", r.page)
              && (r.page.truncated ==> (r.page.token.Some? <==> maxKeys >= 1))
              && (maxKeys == 0 ==> (r.page.truncated <==> m != []))
  {
    if query.delimiter != "" && query.delimiter != "/" {
      return NotImplemented;
    }
    var maxKeys := 1000;
    if query.maxKeys != Absent {
      if query.maxKeys.Malformed? || query.maxKeys.value < 0 {
        return InvalidArgument;
      }
      if query.maxKeys.value < maxKeys {
        maxKeys := query.maxKeys.value;
      }
    }
    var after := query.startAfter;
    if query.continuation != "" {
      var decoded := codec.decode(query.continuation);
      if decoded.None? {
        return InvalidArgument;
      }
      after := decoded.value;
    }
    if query.encodingType != "" && query.encodingType != "url" {
      return InvalidArgument;
    }
    var page := ListPage(entries, after, query.prefix, query.delimiter != "", maxKeys, unreadable);
    return Listed(Sent(page, codec, query.encodingType == "url"));
  }

  // ------------------------------------------------------------- following tokens

  function AllContents(pages: seq<Page>): seq<string> {
    if pages == [] then [] else AllContents(pages[..|pages| - 1]) + pages[|pages| - 1].contents
  }

  function AllPrefixes(pages: seq<Page>): seq<string> {
    if pages == [] then [] else AllPrefixes(pages[..|pages| - 1]) + pages[|pages| - 1].prefixes
  }

  /** Where a page's listing starts: the first one's where asked for, any other's at the token of the
      page before it. */
  function StartOf(pages: seq<Page>, i: nat, startAfter: string): string
    requires i <= |pages|
  {
    if i == 0 || pages[i - 1].token.None? then startAfter else pages[i - 1].token.value
  }

  /** What a client asks for: everything but where to start. */
  datatype Listing = Listing(entries: seq<string>, prefix: string, delimited: bool, maxKeys: nat, unreadable: set<string>)

  ghost predicate IsPageFrom(l: Listing, after: string, page: Page) {
    IsPageOf(Matching(l.entries, after, l.prefix), l.prefix, l.delimited, l.maxKeys, l.unreadable, page)
  }

  /** Pages got by following tokens: each is the page its start has, and all but possibly the last are
      truncated and carry the token the next one starts at. */
  ghost predicate Followed(l: Listing, startAfter: string, pages: seq<Page>)
    decreases |pages|
  {
    pages != [] ==>
      var n := |pages| - 1;
      && Followed(l, startAfter, pages[..n])
      && (n > 0 ==> pages[n - 1].truncated && pages[n - 1].token.Some?)
      && IsPageFrom(l, StartOf(pages, n, startAfter), pages[n])
  }

  lemma FollowedMore(l: Listing, startAfter: string, pages: seq<Page>, page: Page)
    requires Followed(l, startAfter, pages) && IsPageFrom(l, StartOf(pages, |pages|, startAfter), page)
    requires pages != [] ==> pages[|pages| - 1].truncated && pages[|pages| - 1].token.Some?
    ensures Followed(l, startAfter, pages + [page])
  {
    assert (pages + [page])[..|pages|] == pages;
    assert StartOf(pages + [page], |pages|, startAfter) == StartOf(pages, |pages|, startAfter);
  }

  lemma {:induction false} FollowedAt(l: Listing, startAfter: string, pages: seq<Page>, i: nat)
    requires Followed(l, startAfter, pages) && i < |pages|
    ensures IsPageFrom(l, StartOf(pages, i, startAfter), pages[i])
    ensures i < |pages| - 1 ==> pages[i].truncated && pages[i].token.Some?
    decreases |pages|
  {
    var n := |pages| - 1;
    if i < n {
      FollowedAt(l, startAfter, pages[..n], i);
      assert StartOf(pages[..n], i, startAfter) == StartOf(pages, i, startAfter);
    }
  }

  /** What the pages leave to be listed. */
  function Remaining(l: Listing, startAfter: string, pages: seq<Page>): seq<string> {
    if pages != [] && !pages[|pages| - 1].truncated then [] else Matching(l.entries, StartOf(pages, |pages|, startAfter), l.prefix)
  }

  function ObjectsOf(l: Listing, m: seq<string>): seq<string> {
    Objects(m, l.prefix, l.delimited, l.unreadable)
  }

  function PrefixesOf(l: Listing, m: seq<string>): seq<string> {
    CommonPrefixes(m, l.prefix, l.delimited)
  }

  lemma NextPage(l: Listing, after: string, page: Page) returns (rest: seq<string>)
    requires ValidKeys(l.entries) && l.maxKeys >= 1 && IsPageFrom(l, after, page)
    ensures var m := Matching(l.entries, after, l.prefix);
            && ObjectsOf(l, m) == page.contents + ObjectsOf(l, rest)
            && PrefixesOf(l, m) == page.prefixes + PrefixesOf(l, rest)
            && (if page.truncated then page.token.Some? && rest == Matching(l.entries, page.token.value, l.prefix) && |rest| < |m|
                else rest == [])
  {
    var m := Matching(l.entries, after, l.prefix);
    var upTo: nat :| IsPage(m, l.prefix, l.delimited, l.maxKeys, l.unreadable, page, upTo);
    PageThenRest(l.entries, after, l.prefix, l.delimited, l.maxKeys, l.unreadable, page, upTo);
    rest := if page.truncated then m[upTo..] else [];
  }

  lemma ThreeParts<T>(whole: seq<T>, a: seq<T>, middle: seq<T>, b: seq<T>, c: seq<T>)
    requires whole == a + middle && middle == b + c
    ensures whole == (a + b) + c
  {
  }

  /** Whoever follows tokens, however far: the pages so far, put together, and the listing the last
      token resumes are the whole listing, nothing lost and nothing repeated. */
  lemma {:induction false} PagesAreTheListing(l: Listing, startAfter: string, pages: seq<Page>)
    requires ValidKeys(l.entries) && l.maxKeys >= 1 && Followed(l, startAfter, pages)
    ensures var m, rest := Matching(l.entries, startAfter, l.prefix), Remaining(l, startAfter, pages);
            && ObjectsOf(l, m) == AllContents(pages) + ObjectsOf(l, rest)
            && PrefixesOf(l, m) == AllPrefixes(pages) + PrefixesOf(l, rest)
            && |pages| <= |m| + 1
            && (pages != [] && pages[|pages| - 1].truncated ==> |rest| + |pages| <= |m|)
    decreases |pages|
  {
    if pages != [] {
      var n := |pages| - 1;
      var before := pages[..n];
      PagesAreTheListing(l, startAfter, before);
      var after := StartOf(pages, n, startAfter);
      assert StartOf(before, n, startAfter) == after;
      var m, middle := Matching(l.entries, startAfter, l.prefix), Matching(l.entries, after, l.prefix);
      assert Remaining(l, startAfter, before) == middle;
      var rest := NextPage(l, after, pages[n]);
      assert Remaining(l, startAfter, pages) == rest;
      ThreeParts(ObjectsOf(l, m), AllContents(before), ObjectsOf(l, middle), pages[n].contents, ObjectsOf(l, rest));
      ThreeParts(PrefixesOf(l, m), AllPrefixes(before), PrefixesOf(l, middle), pages[n].prefixes, PrefixesOf(l, rest));
    }
  }

  /** The end of the listing, once a page is not truncated. */
  lemma LastPage(l: Listing, startAfter: string, pages: seq<Page>)
    requires ValidKeys(l.entries) && l.maxKeys >= 1 && Followed(l, startAfter, pages)
    requires pages != [] && !pages[|pages| - 1].truncated
    ensures AllContents(pages) == ObjectsOf(l, Matching(l.entries, startAfter, l.prefix))
    ensures AllPrefixes(pages) == PrefixesOf(l, Matching(l.entries, startAfter, l.prefix))
  {
    PagesAreTheListing(l, startAfter, pages);
  }

  /** A client that follows tokens gets to the end, and its pages, put together, are the listing as a
      whole: nothing lost, nothing repeated, no page over the limit. */
  method FollowTokens(l: Listing, startAfter: string) returns (pages: seq<Page>)
    requires ValidKeys(l.entries) && l.maxKeys >= 1
    ensures Followed(l, startAfter, pages) && pages != [] && !pages[|pages| - 1].truncated
    ensures AllContents(pages) == ObjectsOf(l, Matching(l.entries, startAfter, l.prefix))
    ensures AllPrefixes(pages) == PrefixesOf(l, Matching(l.entries, startAfter, l.prefix))
    ensures forall page <- pages :: |page.contents| + |page.prefixes| <= l.maxKeys
  {
    var after := startAfter;
    pages := [];
    ghost var m := Matching(l.entries, startAfter, l.prefix);
    while true
      invariant Followed(l, startAfter, pages)
      invariant pages != [] ==> pages[|pages| - 1].truncated && pages[|pages| - 1].token.Some?
      invariant after == StartOf(pages, |pages|, startAfter)
      invariant forall page <- pages :: |page.contents| + |page.prefixes| <= l.maxKeys
      decreases |m| + 1 - |pages|
    {
      var page := NextListPage(l, after);
      FollowedMore(l, startAfter, pages, page);
      pages := pages + [page];
      PagesAreTheListing(l, startAfter, pages);
      if !page.truncated {
        LastPage(l, startAfter, pages);
        return;
      }
      after := page.token.value;
    }
  }

  method NextListPage(l: Listing, after: string) returns (page: Page)
    requires ValidKeys(l.entries) && l.maxKeys >= 1
    ensures IsPageFrom(l, after, page) && |page.contents| + |page.prefixes| <= l.maxKeys
    ensures page.truncated ==> page.token.Some?
  {
    page := ListPage(l.entries, after, l.prefix, l.delimited, l.maxKeys, l.unreadable);
  }

  /** A page and, if it is not the last, the listing that its token resumes are the whole listing. */
  lemma PageThenRest(entries: seq<string>, after: string, prefix: string, delimited: bool, maxKeys: nat, unreadable: set<string>,
                     page: Page, upTo: nat)
    requires ValidKeys(entries) && maxKeys >= 1
    requires IsPage(Matching(entries, after, prefix), prefix, delimited, maxKeys, unreadable, page, upTo)
    ensures var m := Matching(entries, after, prefix);
            if !page.truncated then
              page.contents == Objects(m, prefix, delimited, unreadable) && page.prefixes == CommonPrefixes(m, prefix, delimited)
            else
              && upTo > 0 && page.token.Some? && Matching(entries, page.token.value, prefix) == m[upTo..]
              && Objects(m, prefix, delimited, unreadable) == page.contents + Objects(m[upTo..], prefix, delimited, unreadable)
              && CommonPrefixes(m, prefix, delimited) == page.prefixes + CommonPrefixes(m[upTo..], prefix, delimited)
  {
    var m := Matching(entries, after, prefix);
    if !page.truncated {
      assert m[..upTo] == m;
    } else {
      MatchingIsSorted(entries, after, prefix);
      forall k | k in m ensures prefix <= k {
        MatchingExact(entries, after, prefix, k);
      }
      CutAtBoundary(m, upTo, prefix, delimited, unreadable);
      ResumeAfter(entries, after, prefix, upTo);
    }
  }
}
