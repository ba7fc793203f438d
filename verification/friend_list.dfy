/** The list of friends and the reducer-style updates the screen applies to
    it (src/App.jsx `handleAddFriend`, `handleRemoveFriend`, the inline name
    edit and `handleAmountChange`). Each update is a pure function from the
    old list to the new one. */
module FriendList {
  import opened Sequences
  import opened AmountInput

  /** Names are cut to this many characters (`.slice(0, 12)`). */
  const MaxNameLength: nat := 12

  /** A participant. `amount` is `None` when it is not a number (NaN). */
  datatype Friend = Friend(id: int, name: string, amount: Option<real>)

  /** The characters `String.prototype.trim` removes: ECMAScript WhiteSpace
      (tab, vertical tab, form feed, space, no-break space, BOM and category
      Zs) and LineTerminator (LF, CR, LS, PS). */
  predicate IsWhitespace(c: char)
  {
    var n := c as int;
    n == 0x09 || n == 0x0A || n == 0x0B || n == 0x0C || n == 0x0D || n == 0x20
    || n == 0xA0 || n == 0x1680 || (0x2000 <= n <= 0x200A) || n == 0x2028
    || n == 0x2029 || n == 0x202F || n == 0x205F || n == 0x3000 || n == 0xFEFF
  }

  predicate Blank(s: string)
  {
    forall k :: 0 <= k < |s| ==> IsWhitespace(s[k])
  }

  /** Number of whitespace characters at the start of `s`. */
  function LeadingWhitespace(s: string): (n: nat)
    ensures n <= |s|
    ensures forall k :: 0 <= k < n ==> IsWhitespace(s[k])
    ensures n < |s| ==> !IsWhitespace(s[n])
    decreases |s|
  {
    if s != [] && IsWhitespace(s[0]) then 1 + LeadingWhitespace(s[1..]) else 0
  }

  /** Number of whitespace characters at the end of `s`. */
  function TrailingWhitespace(s: string): (n: nat)
    ensures n <= |s|
    ensures forall k :: |s| - n <= k < |s| ==> IsWhitespace(s[k])
    ensures n < |s| ==> !IsWhitespace(s[|s| - n - 1])
    decreases |s|
  {
    if s != [] && IsWhitespace(s[|s| - 1]) then 1 + TrailingWhitespace(s[..|s| - 1]) else 0
  }

  /** What is left of `s` once `a` leading and `b` trailing whitespace
      characters are cut off. */
  ghost predicate TrimmedAt(s: string, a: nat, b: nat, r: string)
  {
    && a == LeadingWhitespace(s)
    && a + b <= |s|
    && b == TrailingWhitespace(s[a..])
    && r == s[a..|s| - b]
  }

  lemma TrimmedBlank(s: string, a: nat, b: nat, r: string)
    requires TrimmedAt(s, a, b, r)
    ensures r == [] <==> Blank(s)
  {
  }

  lemma TrimmedEnds(s: string, a: nat, b: nat, r: string)
    requires TrimmedAt(s, a, b, r)
    ensures r != [] ==> !IsWhitespace(r[0]) && !IsWhitespace(r[|r| - 1])
  {
    var rest := s[a..];
    if r != [] {
      assert r[0] == s[a];
      assert r[|r| - 1] == rest[|rest| - b - 1];
    }
  }

  lemma TrimmedMiddle(s: string, a: nat, b: nat, r: string)
    requires TrimmedAt(s, a, b, r)
    ensures 0 <= a <= |s| - |r| && Blank(s[..a]) && r == s[a..a + |r|] && Blank(s[a + |r|..])
  {
    var rest := s[a..];
    assert s[a + |r|..] == rest[|r|..];
  }

  /** `s.trim()`: the part of `s` between its leading and trailing whitespace. */
  function Trim(s: string): (r: string)
    ensures r == [] <==> Blank(s)
    ensures r != [] ==> !IsWhitespace(r[0]) && !IsWhitespace(r[|r| - 1])
    ensures exists a :: 0 <= a <= |s| - |r| && Blank(s[..a]) && r == s[a..a + |r|] && Blank(s[a + |r|..])
  {
    var a := LeadingWhitespace(s);
    var b := TrailingWhitespace(s[a..]);
    var r := s[a..|s| - b];
    TrimmedBlank(s, a, b, r);
    TrimmedEnds(s, a, b, r);
    TrimmedMiddle(s, a, b, r);
    r
  }

  /** `s.slice(0, n)`. */
  function Cut(s: string, n: nat): (r: string)
    ensures |r| <= n
    ensures r <= s
    ensures |s| <= n ==> r == s
    ensures |s| > n ==> |r| == n
  {
    if |s| <= n then s else s[..n]
  }

  /** `Math.max(...fs.map(f => f.id))` for a non-empty list. */
  function MaxId(fs: seq<Friend>): (m: int)
    requires fs != []
    ensures forall k :: 0 <= k < |fs| ==> fs[k].id <= m
    ensures exists k :: 0 <= k < |fs| && fs[k].id == m
    decreases |fs|
  {
    if |fs| == 1 then fs[0].id
    else
      var m := MaxId(fs[1..]);
      if fs[0].id >= m then fs[0].id else m
  }

  /** The id given to a new friend: one more than the largest id, 1 for an empty list. */
  function NextId(fs: seq<Friend>): (id: int)
    ensures forall k :: 0 <= k < |fs| ==> fs[k].id < id
    ensures fs == [] ==> id == 1
    ensures fs != [] ==> exists k :: 0 <= k < |fs| && id == fs[k].id + 1
  {
    if fs == [] then 1 else MaxId(fs) + 1
  }

  predicate UniqueIds(fs: seq<Friend>)
  {
    forall a, b :: 0 <= a < b < |fs| ==> fs[a].id != fs[b].id
  }

  /** `handleAddFriend`: a blank name leaves the list alone; otherwise one
      friend is appended with the trimmed name cut to twelve characters, a
      fresh id and the cleaned amount. */
  function AddFriend(fs: seq<Friend>, newName: string, newAmount: string): (r: seq<Friend>)
    ensures Blank(newName) ==> r == fs
    ensures !Blank(newName) ==>
      && |r| == |fs| + 1
      && r[..|fs|] == fs
      && 0 < |r[|fs|].name| <= MaxNameLength
      && !IsWhitespace(r[|fs|].name[0])
      && r[|fs|].name <= Trim(newName)
      && r[|fs|].name == Cut(Trim(newName), MaxNameLength)
      && (forall k :: 0 <= k < |fs| ==> fs[k].id < r[|fs|].id)
      && r[|fs|].id == NextId(fs)
      && r[|fs|].amount == Some(AmountFromInput(newAmount))
  {
    var name := Cut(Trim(newName), MaxNameLength);
    if name == [] then fs
    else fs + [Friend(NextId(fs), name, Some(AmountFromInput(newAmount)))]
  }

  /** Adding a friend keeps the ids unique. */
  lemma AddKeepsIdsUnique(fs: seq<Friend>, newName: string, newAmount: string)
    requires UniqueIds(fs)
    ensures UniqueIds(AddFriend(fs, newName, newAmount))
  {
    var r := AddFriend(fs, newName, newAmount);
    if !Blank(newName) {
      forall a, b | 0 <= a < b < |r| ensures r[a].id != r[b].id {
        if b < |fs| {
          assert r[a] == fs[a] && r[b] == fs[b];
        } else {
          assert r[a] == fs[a];
        }
      }
    }
  }

  function HasOtherId(id: int): Friend -> bool
  {
    (f: Friend) => f.id != id
  }

  /** `handleRemoveFriend`: drops every friend with the given id. */
  function RemoveFriend(fs: seq<Friend>, id: int): (r: seq<Friend>)
    ensures forall f :: multiset(r)[f] == if f.id == id then 0 else multiset(fs)[f]
    ensures forall k :: 0 <= k < |r| ==> r[k].id != id
  {
    Filter(fs, HasOtherId(id))
  }

  /** Removal keeps the order of what it keeps: it distributes over concatenation. */
  lemma RemoveKeepsOrder(a: seq<Friend>, b: seq<Friend>, id: int)
    ensures RemoveFriend(a + b, id) == RemoveFriend(a, id) + RemoveFriend(b, id)
  {
    FilterAppend(a, b, HasOtherId(id));
  }

  /** Removing an id nobody has changes nothing. */
  lemma RemoveAbsentId(fs: seq<Friend>, id: int)
    requires forall k :: 0 <= k < |fs| ==> fs[k].id != id
    ensures RemoveFriend(fs, id) == fs
  {
    FilterAll(fs, HasOtherId(id));
  }

  /** A friend whose id is not in a list of unique ids can be put in front. */
  lemma ConsKeepsIdsUnique(f: Friend, fs: seq<Friend>)
    requires UniqueIds(fs)
    requires forall k :: 0 <= k < |fs| ==> fs[k].id != f.id
    ensures UniqueIds([f] + fs)
  {
    var r := [f] + fs;
    forall a, b | 0 <= a < b < |r| ensures r[a].id != r[b].id {
      assert r[b] == fs[b - 1];
      if a > 0 {
        assert r[a] == fs[a - 1];
      }
    }
  }

  /** Removal only drops friends, so an id absent before is absent after. */
  lemma RemoveKeepsIdAbsent(fs: seq<Friend>, id: int, other: int)
    requires forall k :: 0 <= k < |fs| ==> fs[k].id != other
    ensures forall k :: 0 <= k < |RemoveFriend(fs, id)| ==> RemoveFriend(fs, id)[k].id != other
  {
    var r := RemoveFriend(fs, id);
    forall k | 0 <= k < |r| ensures r[k].id != other {
      assert r[k] in multiset(r);
      assert r[k] in fs;
    }
  }

  /** In a list of unique ids, the first id does not occur in the tail. */
  lemma HeadIdNotInTail(fs: seq<Friend>)
    requires fs != [] && UniqueIds(fs)
    ensures UniqueIds(fs[1..])
    ensures forall k :: 0 <= k < |fs| - 1 ==> fs[1..][k].id != fs[0].id
  {
  }

  /** Removal keeps the ids unique. */
  lemma {:induction false} RemoveKeepsIdsUnique(fs: seq<Friend>, id: int)
    requires UniqueIds(fs)
    ensures UniqueIds(RemoveFriend(fs, id))
    decreases |fs|
  {
    if fs != [] {
      var tail := fs[1..];
      var rest := RemoveFriend(tail, id);
      HeadIdNotInTail(fs);
      RemoveKeepsIdsUnique(tail, id);
      RemoveKeepsIdAbsent(tail, id, fs[0].id);
      if fs[0].id != id {
        assert RemoveFriend(fs, id) == [fs[0]] + rest;
        ConsKeepsIdsUnique(fs[0], rest);
      } else {
        assert RemoveFriend(fs, id) == rest;
      }
    }
  }

  /** The inline name edit: the friend with the id gets the typed text cut to
      twelve characters; every other friend is kept as it was. */
  function RenameFriend(fs: seq<Friend>, id: int, typed: string): (r: seq<Friend>)
    ensures |r| == |fs|
    ensures forall k :: 0 <= k < |fs| && fs[k].id != id ==> r[k] == fs[k]
    ensures forall k :: 0 <= k < |fs| && fs[k].id == id ==>
      && r[k].id == id
      && r[k].amount == fs[k].amount
      && |r[k].name| <= MaxNameLength
      && r[k].name <= typed
      && (|typed| <= MaxNameLength ==> r[k].name == typed)
      && (|typed| > MaxNameLength ==> |r[k].name| == MaxNameLength)
      && r[k].name == Cut(typed, MaxNameLength)
  {
    seq(|fs|, k requires 0 <= k < |fs| =>
      if fs[k].id == id then fs[k].(name := Cut(typed, MaxNameLength)) else fs[k])
  }

  /** A later edit of the same name replaces an earlier one. */
  lemma RenameOverwrites(fs: seq<Friend>, id: int, first: string, second: string)
    ensures RenameFriend(RenameFriend(fs, id, first), id, second) == RenameFriend(fs, id, second)
  {
  }

  /** `handleAmountChange(id, value)`: the friend with the id gets the
      amount converted from `value`, the text the input field hands over
      (the field itself already cuts it to eight characters); every other
      friend is kept as it was. */
  function ChangeAmount(fs: seq<Friend>, id: int, value: string): (r: seq<Friend>)
    ensures |r| == |fs|
    ensures forall k :: 0 <= k < |fs| && fs[k].id != id ==> r[k] == fs[k]
    ensures forall k :: 0 <= k < |fs| && fs[k].id == id ==>
      && r[k].id == id
      && r[k].name == fs[k].name
      && r[k].amount == Some(AmountFromInput(value))
      && -(Pow10(MaxInputLength - 1) as real) < r[k].amount.value < Pow10(MaxInputLength) as real
  {
    seq(|fs|, k requires 0 <= k < |fs| =>
      if fs[k].id == id then fs[k].(amount := Some(AmountFromInput(value))) else fs[k])
  }

  /** Editing a name or an amount never touches the ids, so uniqueness is kept. */
  lemma EditsKeepIds(fs: seq<Friend>, id: int, typed: string)
    ensures forall k :: 0 <= k < |fs| ==>
      RenameFriend(fs, id, typed)[k].id == fs[k].id && ChangeAmount(fs, id, typed)[k].id == fs[k].id
    ensures UniqueIds(fs) ==> UniqueIds(RenameFriend(fs, id, typed)) && UniqueIds(ChangeAmount(fs, id, typed))
  {
  }
}
