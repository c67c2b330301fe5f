/** The script that generates the cheatcode interface: the order of cheatcodes and the group headers inserted into the
    list while it is being walked. */
module VmScript {

  datatype Cheatcode = Cheatcode(
    id: string, description: string, declaration: Declaration, group: string, status: string, safety: string)

  /** The text printed for a cheatcode: what the input declares, or the comment that announces a group. */
  datatype Declaration = Declared(text: string) | Banner(group: string)

  // ---------------------------------------------------------------- order

  /** Python's order of strings. */
  predicate Less(a: string, b: string) {
    if b == "" then false else
    if a == "" then true else
    a[0] < b[0] || (a[0] == b[0] && Less(a[1..], b[1..]))
  }

  lemma {:induction false} LessIsStrict(a: string, b: string)
    ensures a == b || Less(a, b) || Less(b, a)
    ensures !(Less(a, b) && (a == b || Less(b, a)))
  {
    if a != "" && b != "" {
      LessIsStrict(a[1..], b[1..]);
      assert a == [a[0]] + a[1..] && b == [b[0]] + b[1..];
    }
  }

  /** It is the order of a dictionary: at the first place where they differ, `a` ends or has the smaller character. */
  lemma {:induction false} LessMeaning(a: string, b: string)
    ensures Less(a, b) <==>
              exists k: nat :: k <= |a| && k < |b| && a[..k] == b[..k] && (k == |a| || a[k] < b[k])
  {
    if b == "" {
    } else if a == "" {
      assert a[..0] == b[..0];
    } else {
      LessMeaning(a[1..], b[1..]);
      if Less(a, b) {
        if a[0] < b[0] {
          assert a[..0] == b[..0];
        } else {
          var k: nat :| k <= |a[1..]| && k < |b[1..]| && a[1..][..k] == b[1..][..k]
                        && (k == |a[1..]| || a[1..][k] < b[1..][k]);
          assert a[..k + 1] == [a[0]] + a[1..][..k] && b[..k + 1] == [b[0]] + b[1..][..k];
        }
      }
      if k: nat :| k <= |a| && k < |b| && a[..k] == b[..k] && (k == |a| || a[k] < b[k]) {
        if k > 0 {
          assert a[0] == a[..k][0] == b[..k][0] == b[0];
          assert a[1..][..k - 1] == a[..k][1..] && b[1..][..k - 1] == b[..k][1..];
          assert k - 1 == |a[1..]| || a[1..][k - 1] < b[1..][k - 1];
        }
      }
    }
  }

  lemma {:induction false} LessIsTransitive(a: string, b: string, c: string)
    requires Less(a, b) && Less(b, c)
    ensures Less(a, c)
  {
    if a != "" && a[0] == b[0] == c[0] {
      LessIsTransitive(a[1..], b[1..], c[1..]);
    }
  }

  /** `cmp_cheatcode`. */
  function Compare(a: Cheatcode, b: Cheatcode): int {
    if a.group != b.group then if Less(a.group, b.group) then -1 else 1 else
    if a.status != b.status then if Less(a.status, b.status) then -1 else 1 else
    if a.safety != b.safety then if Less(a.safety, b.safety) then -1 else 1 else
    if a.id != b.id then if Less(a.id, b.id) then -1 else 1 else
    0
  }

  /** Swapping the arguments flips the sign, so the script's three comparison operators are consistent. */
  lemma CompareFlips(a: Cheatcode, b: Cheatcode)
    ensures Compare(a, b) == -Compare(b, a)
    ensures Compare(a, b) == 0 <==>
              a.group == b.group && a.status == b.status && a.safety == b.safety && a.id == b.id
  {
    LessIsStrict(a.group, b.group);
    LessIsStrict(a.status, b.status);
    LessIsStrict(a.safety, b.safety);
    LessIsStrict(a.id, b.id);
  }

  /** The first key that differs decides: group, status, safety and function, in this order. */
  lemma FirstKeyDecides(a: Cheatcode, b: Cheatcode)
    ensures Compare(a, b) in {-1, 0, 1}
    ensures Compare(a, b) < 0 <==>
              || Less(a.group, b.group)
              || (a.group == b.group && Less(a.status, b.status))
              || (a.group == b.group && a.status == b.status && Less(a.safety, b.safety))
              || (a.group == b.group && a.status == b.status && a.safety == b.safety && Less(a.id, b.id))
  {
    LessIsStrict(a.group, b.group);
    LessIsStrict(a.status, b.status);
    LessIsStrict(a.safety, b.safety);
    LessIsStrict(a.id, b.id);
  }

  lemma Chain(a: string, b: string, c: string)
    requires (a == b || Less(a, b)) && (b == c || Less(b, c))
    ensures if a == c then a == b else Less(a, c)
  {
    LessIsStrict(a, b);
    if Less(a, b) && Less(b, c) {
      LessIsTransitive(a, b, c);
    }
  }

  lemma CompareIsTransitive(a: Cheatcode, b: Cheatcode, c: Cheatcode)
    requires Compare(a, b) <= 0 && Compare(b, c) <= 0
    ensures Compare(a, c) <= 0
  {
    Chain(a.group, b.group, c.group);
    if a.group == c.group {
      Chain(a.status, b.status, c.status);
      if a.status == c.status {
        Chain(a.safety, b.safety, c.safety);
        if a.safety == c.safety {
          Chain(a.id, b.id, c.id);
        }
      }
    }
  }

  predicate Sorted(list: seq<Cheatcode>) {
    forall i, j :: 0 <= i < j < |list| ==> Compare(list[i], list[j]) <= 0
  }

  // ---------------------------------------------------------------- headers

  function Header(cheat: Cheatcode): Cheatcode {
    cheat.(description := "", declaration := Banner(cheat.group))
  }

  /** A header is an entry of its own: a copy of the cheatcode with its description gone and a banner to declare. */
  predicate Announces(header: Cheatcode, cheat: Cheatcode) {
    && header.description == "" && header.declaration == Banner(cheat.group)
    && header.group == cheat.group && header.id == cheat.id
    && header.status == cheat.status && header.safety == cheat.safety
  }

  /** The first `n` cheatcodes name a group. */
  predicate Grouped(list: seq<Cheatcode>, n: nat)
    requires n <= |list|
  {
    forall i :: 0 <= i < n ==> list[i].group != ""
  }

  /** A cheatcode, behind the header of its group if that was not seen yet. */
  function Block(cheat: Cheatcode, seen: set<string>): seq<Cheatcode> {
    if cheat.group in seen then [cheat] else [Header(cheat)] + [cheat]
  }

  /** The list with a header before the first cheatcode of each group not seen yet. */
  function Prefixed(list: seq<Cheatcode>, seen: set<string>): seq<Cheatcode> {
    if list == [] then [] else
    Block(list[0], seen) + Prefixed(list[1..], seen + {list[0].group})
  }

  lemma PrefixedSeen(list: seq<Cheatcode>, seen: set<string>)
    requires list != [] && list[0].group in seen
    ensures Prefixed(list, seen) == [list[0]] + Prefixed(list[1..], seen)
  {
    assert seen + {list[0].group} == seen;
  }

  lemma PrefixedNew(list: seq<Cheatcode>, seen: set<string>)
    requires list != [] && list[0].group !in seen
    ensures Prefixed(list, seen) == [Header(list[0])] + Prefixed(list, seen + {list[0].group})
  {
    var more := seen + {list[0].group};
    PrefixedSeen(list, more);
    Reassociate([Header(list[0])], [list[0]], Prefixed(list[1..], more));
  }

  lemma Reassociate<T>(a: seq<T>, b: seq<T>, c: seq<T>)
    ensures (a + b) + c == a + (b + c)
  {
  }

  /** For every stretch of the input that reaches up to `low` or further, what is `done` and the prefixing of the rest
      make up the prefixing of the stretch. */
  ghost predicate Reaches(list: seq<Cheatcode>, k: nat, low: nat, done: seq<Cheatcode>, seen: set<string>) {
    forall e: nat :: k <= low <= e <= |list| ==> Prefixed(list[..e], {}) == done + Prefixed(list[k..e], seen)
  }

  lemma Pass(list: seq<Cheatcode>, k: nat, low: nat, done: seq<Cheatcode>, seen: set<string>)
    requires k < |list| && k <= low <= k + 1 && Reaches(list, k, low, done, seen) && list[k].group in seen
    ensures Reaches(list, k + 1, k + 1, done + [list[k]], seen)
  {
    forall e: nat | k + 1 <= e <= |list|
      ensures Prefixed(list[..e], {}) == done + [list[k]] + Prefixed(list[k + 1..e], seen)
    {
      var rest := list[k..e];
      assert rest[1..] == list[k + 1..e];
      PrefixedSeen(rest, seen);
      Reassociate(done, [list[k]], Prefixed(list[k + 1..e], seen));
    }
  }

  lemma Insert(list: seq<Cheatcode>, k: nat, done: seq<Cheatcode>, seen: set<string>)
    requires k < |list| && Reaches(list, k, k, done, seen) && list[k].group !in seen
    ensures Reaches(list, k, k + 1, done + [Header(list[k])], seen + {list[k].group})
  {
    forall e: nat | k + 1 <= e <= |list|
      ensures Prefixed(list[..e], {}) == done + [Header(list[k])] + Prefixed(list[k..e], seen + {list[k].group})
    {
      PrefixedNew(list[k..e], seen);
      Reassociate(done, [Header(list[k])], Prefixed(list[k..e], seen + {list[k].group}));
    }
  }

  /** Entry `k` is the first without a group, and the entries before it are already prefixed. */
  ghost predicate FailedAt(list: seq<Cheatcode>, k: nat, cheats: seq<Cheatcode>) {
    && k < |list| && list[k].group == "" && Grouped(list, k)
    && cheats == Prefixed(list[..k], {}) + list[k..]
  }

  lemma StepOver<T>(done: seq<T>, list: seq<T>, k: nat)
    requires k < |list|
    ensures (done + list[k..])[|done|] == list[k]
    ensures done + list[k..] == (done + [list[k]]) + list[k + 1..]
  {
  }

  lemma InsertHere<T>(done: seq<T>, rest: seq<T>, x: T)
    ensures (done + rest)[..|done|] + [x] + (done + rest)[|done|..] == (done + [x]) + rest
  {
    assert (done + rest)[..|done|] == done && (done + rest)[|done|..] == rest;
  }

  lemma ReachedHere(list: seq<Cheatcode>, k: nat, done: seq<Cheatcode>, seen: set<string>)
    requires k <= |list| && Reaches(list, k, k, done, seen)
    ensures done == Prefixed(list[..k], {})
  {
    assert list[k..k] == [];
  }

  class CheatList {
    var cheats: seq<Cheatcode>

    constructor (cheats: seq<Cheatcode>)
      ensures this.cheats == cheats
    {
      this.cheats := cheats;
    }

    /** `prefix_with_group_headers`: walks the list by index while inserting into it. It fails at the first cheatcode
        whose group has no first letter, with the headers before it already in place. */
    method PrefixWithGroupHeaders() returns (ok: bool)
      modifies this
      ensures ok <==> Grouped(old(cheats), |old(cheats)|)
      ensures ok ==> cheats == Prefixed(old(cheats), {})
      ensures !ok ==> exists k: nat :: FailedAt(old(cheats), k, cheats)
    {
      ghost var list := cheats;
      var seen: set<string> := {};
      var i := 0;
      ghost var k, low, done := 0, 0, [];
      while i < |cheats|
        invariant 0 <= k <= |list| && i == |done| && cheats == done + list[k..]
        invariant k <= low <= k + 1 && (low == k + 1 ==> k < |list| && list[k].group in seen)
        invariant Grouped(list, k) && "" !in seen
        invariant Reaches(list, k, low, done, seen)
        decreases |list| - k, if i < |cheats| && cheats[i].group in seen then 0 else 1
      {
        var cheat := cheats[i];
        StepOver(done, list, k);
        if cheat.group in seen {
          Pass(list, k, low, done, seen);
          k, low, done := k + 1, k + 1, done + [cheat];
        } else {
          ghost var before := seen;
          seen := seen + {cheat.group};
          if cheat.group == "" {
            ReachedHere(list, k, done, before);
            assert FailedAt(list, k, cheats);
            return false;
          }
          Insert(list, k, done, before);
          InsertHere(done, list[k..], Header(cheat));
          cheats := cheats[..i] + [Header(cheat)] + cheats[i..];
          low, done := k + 1, done + [Header(cheat)];
        }
        i := i + 1;
      }
      ReachedHere(list, k, done, seen);
      assert list[..k] == list;
      return true;
    }
  }

  // ---------------------------------------------------------------- what a prefixed list is

  /** The entries that are not marked. */
  function Unmarked(list: seq<Cheatcode>, marks: seq<bool>): seq<Cheatcode>
    requires |list| == |marks|
  {
    if list == [] then [] else
    (if marks[0] then [] else [list[0]]) + Unmarked(list[1..], marks[1..])
  }

  /** No entry before `p` belongs to the group of entry `p`. */
  predicate FirstOfGroup(list: seq<Cheatcode>, p: nat, seen: set<string>)
    requires p < |list|
  {
    list[p].group !in seen && forall q :: 0 <= q < p ==> list[q].group != list[p].group
  }

  /** Entry `p` is marked exactly when it is the first of its group, and then it is the header of the entry after. */
  ghost predicate HeadedAt(list: seq<Cheatcode>, marks: seq<bool>, seen: set<string>, p: nat)
    requires |marks| == |list| && p < |list|
  {
    && (marks[p] <==> FirstOfGroup(list, p, seen))
    && (marks[p] ==> p + 1 < |list| && Announces(list[p], list[p + 1]))
  }

  /** The marked entries of `list` are headers, one just before the first member of each group not seen yet. */
  ghost predicate Headed(list: seq<Cheatcode>, marks: seq<bool>, seen: set<string>) {
    |marks| == |list| && forall p: nat :: p < |list| ==> HeadedAt(list, marks, seen, p)
  }

  function Marks(list: seq<Cheatcode>, seen: set<string>): seq<bool> {
    if list == [] then [] else
    Flags(list[0], seen) + Marks(list[1..], seen + {list[0].group})
  }

  /** Prefixing puts exactly one header for each group, just before its first member, and taking the headers out again
      gives back the input. */
  lemma {:induction false} PrefixedIsHeaded(list: seq<Cheatcode>, seen: set<string>)
    ensures Headed(Prefixed(list, seen), Marks(list, seen), seen)
    ensures Unmarked(Prefixed(list, seen), Marks(list, seen)) == list
  {
    if list != [] {
      var c := list[0];
      var rest, marks := Prefixed(list[1..], seen + {c.group}), Marks(list[1..], seen + {c.group});
      PrefixedIsHeaded(list[1..], seen + {c.group});
      HeadedAfter(c, rest, marks, seen);
      UnmarkedAfter(c, rest, marks, seen);
      assert list == [c] + list[1..];
    }
  }

  /** Behind entries that are all of one group, an entry is the first of its group exactly when it was so among the
      rest, with that group seen. */
  lemma LaterFirst(front: seq<Cheatcode>, rest: seq<Cheatcode>, p: nat, seen: set<string>, group: string)
    requires front != [] && (forall i :: 0 <= i < |front| ==> front[i].group == group) && p < |rest|
    ensures (front + rest)[|front| + p] == rest[p]
    ensures FirstOfGroup(front + rest, |front| + p, seen) <==> FirstOfGroup(rest, p, seen + {group})
  {
    var all := front + rest;
    assert forall q :: 0 <= q < |rest| ==> rest[q] == all[|front| + q];
    if FirstOfGroup(all, |front| + p, seen) {
      assert all[0].group == group;
    } else if rest[p].group !in seen + {group} {
      var q :| 0 <= q < |front| + p && all[q].group == all[|front| + p].group;
      assert q >= |front| ==> all[q] == rest[q - |front|];
    }
  }

  function Flags(cheat: Cheatcode, seen: set<string>): seq<bool> {
    if cheat.group in seen then [false] else [true] + [false]
  }

  lemma HeadedAfter(c: Cheatcode, rest: seq<Cheatcode>, marks: seq<bool>, seen: set<string>)
    requires Headed(rest, marks, seen + {c.group})
    ensures Headed(Block(c, seen) + rest, Flags(c, seen) + marks, seen)
  {
    var all, allMarks := Block(c, seen) + rest, Flags(c, seen) + marks;
    forall p: nat | p < |all|
      ensures HeadedAt(all, allMarks, seen, p)
    {
      if p >= |Block(c, seen)| {
        HeadedBehind(Block(c, seen), rest, Flags(c, seen), marks, p - |Block(c, seen)|, seen, c.group);
      } else {
        assert all[0].group == all[p].group;
      }
    }
  }

  lemma HeadedBehind(front: seq<Cheatcode>, rest: seq<Cheatcode>, flags: seq<bool>, marks: seq<bool>, p: nat,
                     seen: set<string>, group: string)
    requires front != [] && (forall i :: 0 <= i < |front| ==> front[i].group == group) && |front| == |flags|
    requires Headed(rest, marks, seen + {group}) && p < |rest|
    ensures HeadedAt(front + rest, flags + marks, seen, |front| + p)
  {
    LaterFirst(front, rest, p, seen, group);
    assert HeadedAt(rest, marks, seen + {group}, p);
  }

  lemma UnmarkedAfter(c: Cheatcode, rest: seq<Cheatcode>, marks: seq<bool>, seen: set<string>)
    requires |rest| == |marks|
    ensures Unmarked(Block(c, seen) + rest, Flags(c, seen) + marks) == [c] + Unmarked(rest, marks)
  {
    UnmarkedCons(c, false, rest, marks);
    if c.group !in seen {
      UnmarkedCons(Header(c), true, [c] + rest, [false] + marks);
      Reassociate([Header(c)], [c], rest);
      Reassociate([true], [false], marks);
    }
  }

  lemma UnmarkedCons(x: Cheatcode, mark: bool, rest: seq<Cheatcode>, marks: seq<bool>)
    requires |rest| == |marks|
    ensures Unmarked([x] + rest, [mark] + marks) == (if mark then [] else [x]) + Unmarked(rest, marks)
  {
    assert ([x] + rest)[1..] == rest && ([mark] + marks)[1..] == marks;
  }

  /** There is no other way to do it: any list with its headers marked like this is the prefixing of what is left when
      they are taken out. */
  lemma {:induction false} HeadedIsPrefixed(out: seq<Cheatcode>, marks: seq<bool>, seen: set<string>)
    requires Headed(out, marks, seen)
    ensures out == Prefixed(Unmarked(out, marks), seen)
    decreases |out|
  {
    if out != [] {
      assert HeadedAt(out, marks, seen, 0);
      var n := if marks[0] then 2 else 1;
      var c := out[n - 1];
      if marks[0] {
        assert HeadedAt(out, marks, seen, 1);
        assert out[0].group == c.group;
      }
      var rest, restMarks := out[n..], marks[n..];
      assert out == Block(c, seen) + rest && marks == Flags(c, seen) + restMarks;
      HeadedRest(Block(c, seen), rest, Flags(c, seen), restMarks, seen, c.group);
      HeadedIsPrefixed(rest, restMarks, seen + {c.group});
      UnmarkedAfter(c, rest, restMarks, seen);
      var list := [c] + Unmarked(rest, restMarks);
      assert list[1..] == Unmarked(rest, restMarks);
    }
  }

  lemma HeadedRest(front: seq<Cheatcode>, rest: seq<Cheatcode>, flags: seq<bool>, marks: seq<bool>,
                   seen: set<string>, group: string)
    requires front != [] && (forall i :: 0 <= i < |front| ==> front[i].group == group) && |front| == |flags|
    requires Headed(front + rest, flags + marks, seen)
    ensures Headed(rest, marks, seen + {group})
  {
    forall p: nat | p < |rest|
      ensures HeadedAt(rest, marks, seen + {group}, p)
    {
      LaterFirst(front, rest, p, seen, group);
      assert HeadedAt(front + rest, flags + marks, seen, |front| + p);
    }
  }

  predicate GroupsInOrder(list: seq<Cheatcode>) {
    forall i, j :: 0 <= i < j < |list| ==> list[i].group == list[j].group || Less(list[i].group, list[j].group)
  }

  /** Prefixing adds no group and keeps the groups in order. */
  lemma {:induction false} PrefixedKeepsOrder(list: seq<Cheatcode>, seen: set<string>)
    requires GroupsInOrder(list)
    ensures GroupsInOrder(Prefixed(list, seen))
    ensures forall i :: 0 <= i < |Prefixed(list, seen)| ==> HasGroup(list, Prefixed(list, seen)[i].group)
  {
    if list != [] {
      var c, rest := list[0], Prefixed(list[1..], seen + {list[0].group});
      assert list == [c] + list[1..];
      PrefixedKeepsOrder(list[1..], seen + {c.group});
      OrderBehind(c, list[1..], Block(c, seen), rest);
    }
  }

  predicate HasGroup(list: seq<Cheatcode>, group: string) {
    exists k :: 0 <= k < |list| && list[k].group == group
  }

  lemma OrderBehind(c: Cheatcode, list: seq<Cheatcode>, block: seq<Cheatcode>, rest: seq<Cheatcode>)
    requires GroupsInOrder([c] + list) && GroupsInOrder(rest)
    requires forall i :: 0 <= i < |block| ==> block[i].group == c.group
    requires forall i :: 0 <= i < |rest| ==> HasGroup(list, rest[i].group)
    ensures GroupsInOrder(block + rest)
    ensures forall i :: 0 <= i < |block + rest| ==> HasGroup([c] + list, (block + rest)[i].group)
  {
    var whole := [c] + list;
    assert whole[0] == c;
    forall i | 0 <= i < |rest|
      ensures HasGroup(whole, rest[i].group)
      ensures c.group == rest[i].group || Less(c.group, rest[i].group)
    {
      var k :| 0 <= k < |list| && list[k].group == rest[i].group;
      assert whole[k + 1] == list[k];
    }
  }

  /** In any list with its headers marked and its groups in order, what lies between a header and a member of its
      group is unmarked and of that group. */
  lemma Between(out: seq<Cheatcode>, marks: seq<bool>, p: nat, q: nat)
    requires Headed(out, marks, {}) && GroupsInOrder(out)
    requires p < |out| && q < |out| && marks[p] && !marks[q] && out[q].group == out[p].group
    ensures p < q
    ensures forall r :: p < r <= q ==> !marks[r] && out[r].group == out[p].group
  {
    assert HeadedAt(out, marks, {}, p);
    forall r | p < r < q
      ensures !marks[r] && out[r].group == out[p].group
    {
      LessIsStrict(out[p].group, out[r].group);
      assert HeadedAt(out, marks, {}, r);
    }
  }

  /** On a sorted list every group lies wholly between its own header and the next one. */
  lemma GroupsLieBetweenHeaders(list: seq<Cheatcode>, p: nat, q: nat)
    requires Sorted(list)
    requires var out, marks := Prefixed(list, {}), Marks(list, {});
             |marks| == |out| && p < |out| && q < |out| && marks[p] && !marks[q] && out[q].group == out[p].group
    ensures p < q
    ensures forall r :: p < r <= q && r < |Marks(list, {})| && r < |Prefixed(list, {})| ==>
              !Marks(list, {})[r] && Prefixed(list, {})[r].group == Prefixed(list, {})[p].group
  {
    PrefixedIsHeaded(list, {});
    SortedGroups(list);
    PrefixedKeepsOrder(list, {});
    Between(Prefixed(list, {}), Marks(list, {}), p, q);
  }

  lemma SortedGroups(list: seq<Cheatcode>)
    requires Sorted(list)
    ensures GroupsInOrder(list)
  {
  }
}
