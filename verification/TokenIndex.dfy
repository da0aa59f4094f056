/** The token lookups generated by client/src/genlibtokenlookup.py and client/src/gentokenlookup.py: names are
    indexed by length and last character, and the emitted code compares the rest. */
module TokenIndex {
  import opened Options

  type Group = map<char, seq<string>>

  type Index = map<nat, Group>

  // ---------- the index ----------

  /** The names listed under a length and a last character. */
  function At(b: Index, size: nat, c: char): seq<string>
  {
    if size in b && c in b[size] then b[size][c] else []
  }

  predicate Belongs(k: string, size: nat, c: char)
  {
    |k| == size > 0 && k[size - 1] == c
  }

  /** The names of a list with this length and last character, in their order; when `unique`, only the first
      occurrence of each. */
  function Matching(names: seq<string>, size: nat, c: char, unique: bool): seq<string>
  {
    if names == [] then []
    else
      var n := |names| - 1;
      var r, k := Matching(names[..n], size, c, unique), names[n];
      if Belongs(k, size, c) && !(unique && k in r) then r + [k] else r
  }

  lemma {:induction false} MatchingMembers(names: seq<string>, size: nat, c: char, unique: bool, k: string)
    ensures k in Matching(names, size, c, unique) <==> k in names && Belongs(k, size, c)
  {
    if names != [] {
      var n := |names| - 1;
      MatchingMembers(names[..n], size, c, unique, k);
      MatchingMembers(names[..n], size, c, unique, names[n]);
      assert names == names[..n] + [names[n]];
    }
  }

  /** Without repetitions, every name is listed once; with them, as often as it is in the list. */
  lemma {:induction false} MatchingCounts(names: seq<string>, size: nat, c: char, unique: bool, k: string)
    requires Belongs(k, size, c)
    ensures var r := multiset(Matching(names, size, c, unique));
            r[k] == if unique && k in names then 1 else multiset(names)[k]
  {
    if names != [] {
      var n := |names| - 1;
      MatchingCounts(names[..n], size, c, unique, k);
      MatchingMembers(names[..n], size, c, unique, k);
      assert names == names[..n] + [names[n]];
    }
  }

  ghost predicate Indexes(b: Index, names: seq<string>, unique: bool)
  {
    && (forall size: nat, c: char :: At(b, size, c) == Matching(names, size, c, unique))
    && forall size :: size in b ==> size > 0
  }

  function Insert(b: Index, k: string, unique: bool): Index
    requires k != []
  {
    var size, c := |k|, k[|k| - 1];
    var group := if size in b then b[size] else map[];
    var list := if c in group then group[c] else [];
    b[size := group[c := if unique && k in list then list else list + [k]]]
  }

  lemma InsertIndexes(b: Index, names: seq<string>, unique: bool)
    requires names != [] && names[|names| - 1] != [] && Indexes(b, names[..|names| - 1], unique)
    ensures Indexes(Insert(b, names[|names| - 1], unique), names, unique)
  {
    var n := |names| - 1;
    var k := names[n];
    forall size: nat, c: char ensures At(Insert(b, k, unique), size, c) == Matching(names, size, c, unique) {
      assert At(b, size, c) == Matching(names[..n], size, c, unique);
      assert At(Insert(b, k, unique), size, c) ==
             if Belongs(k, size, c) && !(unique && k in At(b, size, c)) then At(b, size, c) + [k] else At(b, size, c);
    }
  }

  lemma InsertNext(b: Index, headers: seq<string>, i: nat, unique: bool)
    requires i < |headers| && headers[i] != [] && Indexes(b, headers[..i], unique)
    ensures Indexes(Insert(b, headers[i], unique), headers[..i + 1], unique)
  {
    assert headers[..i + 1][..i] == headers[..i];
    InsertIndexes(b, headers[..i + 1], unique);
  }

  /** `build_header` of both programs; `unique` is the test that only the first of them makes. An empty name
      raises an exception. */
  method BuildHeader(headers: seq<string>, unique: bool) returns (res: Option<Index>)
    ensures res.None? <==> exists k :: 0 <= k < |headers| && headers[k] == []
    ensures res.Some? ==> Indexes(res.value, headers, unique)
  {
    var b: Index := map[];
    for i := 0 to |headers|
      invariant forall k :: 0 <= k < i ==> headers[k] != []
      invariant Indexes(b, headers[..i], unique)
    {
      var k := headers[i];
      ghost var before := b;
      var size: nat := |k|;
      if size !in b {
        b := b[size := map[]];
      }
      var ent := b[size];
      if k == [] {
        return None;
      }
      var c := k[size - 1];
      if c !in ent {
        ent := ent[c := []];
      }
      if !unique || k !in ent[c] {
        ent := ent[c := ent[c] + [k]];
      }
      b := b[size := ent];
      ghost var group := if size in before then before[size] else map[];
      assert ent == group[c := if unique && k in At(before, size, c) then At(before, size, c)
                                else At(before, size, c) + [k]];
      assert b == Insert(before, k, unique);
      InsertNext(before, headers, i, unique);
    }
    assert headers[..|headers|] == headers;
    res := Some(b);
  }

  // ---------- the tokens ----------

  function Upper(c: char): char
  {
    if 'a' <= c <= 'z' then (c as int - 'a' as int + 'A' as int) as char else c
  }

  /** The character of a token for a character of a name. */
  function TokenChar(c: char): char
  {
    if Upper(c) == ':' || Upper(c) == '-' then '_' else Upper(c)
  }

  method ToEnum(k: string, prefix: string) returns (res: string)
    ensures res == TokenOf(k, prefix)
  {
    res := prefix + "_";
    for i := 0 to |k|
      invariant res == TokenOf(k[..i], prefix)
    {
      var c := Upper(k[i]);
      assert k[..i + 1][..i] == k[..i];
      if c == ':' || c == '-' {
        res := res + "_";
        continue;
      }
      res := res + [c];
    }
    assert k[..|k|] == k;
  }

  function TokenOf(k: string, prefix: string): (t: string)
    ensures |t| == |prefix| + 1 + |k|
    ensures forall i :: 0 <= i < |k| ==> t[|prefix| + 1 + i] == TokenChar(k[i])
  {
    if k == [] then prefix + "_" else TokenOf(k[..|k| - 1], prefix) + [TokenChar(k[|k| - 1])]
  }

  predicate Separator(c: char)
  {
    c == ':' || c == '-' || c == '_'
  }

  /** Characters that a token does not tell apart. */
  predicate Alike(a: char, b: char)
  {
    Upper(a) == Upper(b) || (Separator(a) && Separator(b))
  }

  /** Two names get the same token exactly when they have the same length and agree but for case and for which
      of colon, hyphen and underscore they use. */
  lemma {:induction false} SameToken(k: string, l: string, prefix: string)
    ensures TokenOf(k, prefix) == TokenOf(l, prefix) <==> |k| == |l| && forall i :: 0 <= i < |k| ==> Alike(k[i], l[i])
  {
    if |k| == |l| && k != [] {
      var n := |k| - 1;
      SameToken(k[..n], l[..n], prefix);
      var s, t := TokenOf(k[..n], prefix), TokenOf(l[..n], prefix);
      assert (s + [TokenChar(k[n])])[..|s|] == s && (t + [TokenChar(l[n])])[..|t|] == t;
      assert TokenChar(k[n]) == TokenChar(l[n]) <==> Alike(k[n], l[n]);
    }
  }

  /** The spelling of a token: the prefix and an underscore, then the name in upper case, with underscores for colons
      and hyphens. */
  lemma TokenSpelled(k: string, prefix: string)
    ensures |TokenOf(k, prefix)| == |prefix| + 1 + |k|
    ensures TokenOf(k, prefix)[..|prefix| + 1] == prefix + "_"
    ensures forall i :: 0 <= i < |k| ==>
              var t := TokenOf(k, prefix)[|prefix| + 1 + i];
              && (k[i] == ':' || k[i] == '-' ==> t == '_')
              && ('a' <= k[i] <= 'z' ==> 'A' <= t <= 'Z' && t as int == k[i] as int - 32)
              && (!(k[i] == ':' || k[i] == '-' || 'a' <= k[i] <= 'z') ==> t == k[i])
  {
    TokenPrefix(k, prefix);
  }

  lemma {:induction false} TokenPrefix(k: string, prefix: string)
    ensures TokenOf(k, prefix)[..|prefix| + 1] == prefix + "_"
  {
    if k != [] {
      TokenPrefix(k[..|k| - 1], prefix);
    }
  }

  // ---------- the emitted lookup ----------

  /** One inner case of the emitted code: a last character and the names compared under it. */
  datatype CharCase = CharCase(last: char, names: seq<string>)

  /** One outer case: a length and its inner cases. */
  datatype SizeCase = SizeCase(size: nat, chars: seq<CharCase>)

  /** The order of texts by their characters. */
  predicate Precedes(a: string, b: string)
  {
    a == [] || (b != [] && (a[0] < b[0] || (a[0] == b[0] && Precedes(a[1..], b[1..]))))
  }

  lemma {:induction false} PrecedesTotal(a: string, b: string)
    ensures Precedes(a, b) || Precedes(b, a)
  {
    if a != [] && b != [] && a[0] == b[0] {
      PrecedesTotal(a[1..], b[1..]);
    }
  }

  lemma {:induction false} PrecedesTransitive(a: string, b: string, c: string)
    requires Precedes(a, b) && Precedes(b, c)
    ensures Precedes(a, c)
  {
    if a != [] && a[0] == b[0] == c[0] {
      PrecedesTransitive(a[1..], b[1..], c[1..]);
    }
  }

  /** The order of the names is that of their first different characters, a beginning coming before what it begins. */
  lemma {:induction false} PrecedesExactly(a: string, b: string)
    ensures Precedes(a, b) <==> a <= b || exists i :: 0 <= i < |a| && i < |b| && a[..i] == b[..i] && a[i] < b[i]
  {
    if a != [] && b != [] {
      assert a == [a[0]] + a[1..] && b == [b[0]] + b[1..];
      if a[0] == b[0] {
        PrecedesExactly(a[1..], b[1..]);
        FirstSame(a, b);
      } else {
        assert a[0] < b[0] ==> a[..0] == b[..0];
        assert forall i :: 0 < i < |a| && i < |b| ==> a[..i][0] != b[..i][0];
      }
    }
  }

  lemma FirstSame(a: string, b: string)
    requires a != [] && b != [] && a[0] == b[0]
    ensures a <= b <==> a[1..] <= b[1..]
    ensures (exists i :: 0 <= i < |a| && i < |b| && a[..i] == b[..i] && a[i] < b[i])
            <==> exists i :: 0 <= i < |a[1..]| && i < |b[1..]| && a[1..][..i] == b[1..][..i] && a[1..][i] < b[1..][i]
  {
    var c, d := a[1..], b[1..];
    assert a == [a[0]] + c && b == [b[0]] + d;
    forall i | 0 <= i < |c| && i < |d|
      ensures a[..i + 1] == b[..i + 1] <==> c[..i] == d[..i]
    {
      assert a[..i + 1] == [a[0]] + c[..i] && b[..i + 1] == [b[0]] + d[..i];
      assert a[..i + 1][1..] == c[..i] && b[..i + 1][1..] == d[..i];
    }
    if i :| 0 <= i < |a| && i < |b| && a[..i] == b[..i] && a[i] < b[i] {
      assert c[..i - 1] == d[..i - 1] && c[i - 1] < d[i - 1];
    }
    if i :| 0 <= i < |c| && i < |d| && c[..i] == d[..i] && c[i] < d[i] {
      assert a[..i + 1] == b[..i + 1] && a[i + 1] < b[i + 1];
    }
  }

  predicate SortedNames(names: seq<string>)
  {
    forall i, j :: 0 <= i < j < |names| ==> Precedes(names[i], names[j])
  }

  /** The inner cases are in ascending order, each with its names sorted. */
  ghost predicate GroupInOrder(chars: seq<CharCase>)
  {
    && (forall i, j :: 0 <= i < j < |chars| ==> chars[i].last < chars[j].last)
    && (forall i :: 0 <= i < |chars| ==> SortedNames(chars[i].names))
  }

  /** So are the outer cases. */
  ghost predicate InOrder(code: seq<SizeCase>)
  {
    && (forall i, j :: 0 <= i < j < |code| ==> code[i].size < code[j].size)
    && (forall i :: 0 <= i < |code| ==> GroupInOrder(code[i].chars))
  }

  /** The inner cases list a group: each character once, its names in any order. */
  ghost predicate Lists(chars: seq<CharCase>, group: Group)
  {
    && (forall i, j :: 0 <= i < j < |chars| ==> chars[i].last != chars[j].last)
    && (forall i :: 0 <= i < |chars| ==>
                          chars[i].last in group && multiset(chars[i].names) == multiset(group[chars[i].last]))
    && (forall c :: c in group ==> exists i :: 0 <= i < |chars| && chars[i].last == c)
  }

  /** The emitted code lists an index: each length once. */
  ghost predicate Emits(code: seq<SizeCase>, b: Index)
  {
    && (forall i, j :: 0 <= i < j < |code| ==> code[i].size != code[j].size)
    && (forall i :: 0 <= i < |code| ==> code[i].size in b && Lists(code[i].chars, b[code[i].size]))
    && (forall size :: size in b ==> exists i :: 0 <= i < |code| && code[i].size == size)
  }

  method LeastName(list: seq<string>) returns (i: nat)
    requires list != []
    ensures i < |list| && forall j :: 0 <= j < |list| ==> Precedes(list[i], list[j])
  {
    i := 0;
    PrecedesTotal(list[0], list[0]);
    for n := 1 to |list|
      invariant i < n && forall j :: 0 <= j < n ==> Precedes(list[i], list[j])
    {
      PrecedesTotal(list[i], list[n]);
      PrecedesTotal(list[n], list[n]);
      if !Precedes(list[i], list[n]) {
        forall j | 0 <= j < n
          ensures Precedes(list[n], list[j])
        {
          PrecedesTransitive(list[n], list[i], list[j]);
        }
        i := n;
      }
    }
  }

  /** `sorted` on a list of names. */
  method Sorted(list: seq<string>) returns (r: seq<string>)
    ensures multiset(r) == multiset(list) && SortedNames(r)
  {
    var rest := list;
    r := [];
    while rest != []
      invariant multiset(r) + multiset(rest) == multiset(list) && SortedNames(r)
      invariant forall i, j :: 0 <= i < |r| && 0 <= j < |rest| ==> Precedes(r[i], rest[j])
      decreases |rest|
    {
      var i := LeastName(rest);
      assert rest == rest[..i] + [rest[i]] + rest[i + 1..];
      r := r + [rest[i]];
      rest := rest[..i] + rest[i + 1..];
    }
  }

  method LeastChar(s: set<char>) returns (c: char)
    requires s != {}
    ensures c in s && forall d :: d in s ==> c <= d
  {
    c :| c in s;
    var rest := s;
    while rest != {}
      invariant rest <= s && c in s && forall d :: d in s && d !in rest ==> c <= d
      decreases |rest|
    {
      var d :| d in rest;
      if d < c {
        c := d;
      }
      rest := rest - {d};
    }
  }

  method LeastSize(s: set<nat>) returns (k: nat)
    requires s != {}
    ensures k in s && forall m :: m in s ==> k <= m
  {
    k :| k in s;
    var rest := s;
    while rest != {}
      invariant rest <= s && k in s && forall m :: m in s && m !in rest ==> k <= m
      decreases |rest|
    {
      var m :| m in rest;
      if m < k {
        k := m;
      }
      rest := rest - {m};
    }
  }

  /** The cases so far list the group but for the characters in `rest`, which come after them. */
  ghost predicate ListsPart(chars: seq<CharCase>, group: Group, rest: set<char>)
  {
    && rest <= group.Keys
    && (forall i, c :: 0 <= i < |chars| && c in rest ==> chars[i].last < c)
    && (forall i, j :: 0 <= i < j < |chars| ==> chars[i].last < chars[j].last)
    && (forall i :: 0 <= i < |chars| ==>
                      && SortedNames(chars[i].names) && chars[i].last in group
                      && multiset(chars[i].names) == multiset(group[chars[i].last]))
    && (forall c :: c in group && c !in rest ==> exists i :: 0 <= i < |chars| && chars[i].last == c)
  }

  lemma ListsMore(chars: seq<CharCase>, group: Group, rest: set<char>, c: char, names: seq<string>)
    requires ListsPart(chars, group, rest) && c in rest && forall d :: d in rest ==> c <= d
    requires SortedNames(names) && multiset(names) == multiset(group[c])
    ensures ListsPart(chars + [CharCase(c, names)], group, rest - {c})
  {
    var more := chars + [CharCase(c, names)];
    assert more[|chars|].last == c;
    assert forall i :: 0 <= i < |chars| ==> more[i] == chars[i];
  }

  method EmitGroup(ents: Group) returns (chars: seq<CharCase>)
    ensures Lists(chars, ents) && GroupInOrder(chars)
  {
    chars := [];
    var rest := ents.Keys;
    while rest != {}
      invariant ListsPart(chars, ents, rest)
      decreases |rest|
    {
      var c := LeastChar(rest);
      var headers := Sorted(ents[c]);
      ListsMore(chars, ents, rest, c, headers);
      chars := chars + [CharCase(c, headers)];
      rest := rest - {c};
    }
  }

  /** The same for the lengths of an index. */
  ghost predicate EmitsPart(code: seq<SizeCase>, b: Index, rest: set<nat>)
  {
    && rest <= b.Keys
    && (forall i, k :: 0 <= i < |code| && k in rest ==> code[i].size < k)
    && (forall i, j :: 0 <= i < j < |code| ==> code[i].size < code[j].size)
    && (forall i :: 0 <= i < |code| ==>
                      && code[i].size in b && Lists(code[i].chars, b[code[i].size]) && GroupInOrder(code[i].chars))
    && (forall size :: size in b && size !in rest ==> exists i :: 0 <= i < |code| && code[i].size == size)
  }

  lemma EmitsMore(code: seq<SizeCase>, b: Index, rest: set<nat>, size: nat, chars: seq<CharCase>)
    requires EmitsPart(code, b, rest) && size in rest && forall k :: k in rest ==> size <= k
    requires Lists(chars, b[size]) && GroupInOrder(chars)
    ensures EmitsPart(code + [SizeCase(size, chars)], b, rest - {size})
  {
    var more := code + [SizeCase(size, chars)];
    assert more[|code|].size == size;
    assert forall i :: 0 <= i < |code| ==> more[i] == code[i];
  }

  /** The cases of the two nested switches, in ascending order. */
  method EmitLookup(b: Index) returns (code: seq<SizeCase>)
    ensures Emits(code, b) && InOrder(code)
  {
    code := [];
    var rest := b.Keys;
    while rest != {}
      invariant EmitsPart(code, b, rest)
      decreases |rest|
    {
      var size := LeastSize(rest);
      var chars := EmitGroup(b[size]);
      EmitsMore(code, b, rest, size, chars);
      code := code + [SizeCase(size, chars)];
      rest := rest - {size};
    }
  }

  /** The comparisons of one inner case: all but the last character. */
  function RunNames(names: seq<string>, name: string, prefix: string): Option<string>
    requires name != [] && forall k :: 0 <= k < |names| ==> |names[k]| == |name|
  {
    if names == [] then None
    else
      var k, n := names[0], |name| - 1;
      if k[..n] == name[..n] then Some(TokenOf(k, prefix)) else RunNames(names[1..], name, prefix)
  }

  /** The switch on the last character. */
  function RunChars(chars: seq<CharCase>, name: string, prefix: string): Option<string>
    requires name != []
    requires forall i, k :: 0 <= i < |chars| && 0 <= k < |chars[i].names| ==> |chars[i].names[k]| == |name|
  {
    if chars == [] then None
    else if chars[0].last == name[|name| - 1] then RunNames(chars[0].names, name, prefix)
    else RunChars(chars[1..], name, prefix)
  }

  /** The switch on the length. */
  function RunCode(code: seq<SizeCase>, name: string, prefix: string): Option<string>
    requires Sized(code)
  {
    if code == [] then None
    else if code[0].size == |name| then RunChars(code[0].chars, name, prefix)
    else RunCode(code[1..], name, prefix)
  }

  /** The names under a length have that length, which is not zero. */
  ghost predicate Sized(code: seq<SizeCase>)
  {
    forall i :: 0 <= i < |code| ==>
      && code[i].size > 0
      && forall j, k :: 0 <= j < |code[i].chars| && 0 <= k < |code[i].chars[j].names| ==>
                           |code[i].chars[j].names[k]| == code[i].size
  }

  /** Names of one length and last character: comparing the rest finds a name exactly when it is listed. */
  lemma {:induction false} RunNamesExact(names: seq<string>, name: string, prefix: string)
    requires name != []
    requires forall k :: 0 <= k < |names| ==> |names[k]| == |name| && Belongs(names[k], |name|, name[|name| - 1])
    ensures RunNames(names, name, prefix) == if name in names then Some(TokenOf(name, prefix)) else None
  {
    if names != [] {
      var k, n := names[0], |name| - 1;
      assert k == k[..n] + [k[n]] && name == name[..n] + [name[n]];
      RunNamesExact(names[1..], name, prefix);
      assert names == [k] + names[1..];
    }
  }

  lemma {:induction false} RunCharsAt(chars: seq<CharCase>, name: string, prefix: string, i: nat)
    requires name != [] && i <= |chars|
    requires forall j, k :: 0 <= j < |chars| && 0 <= k < |chars[j].names| ==> |chars[j].names[k]| == |name|
    requires forall j :: 0 <= j < i ==> chars[j].last != name[|name| - 1]
    requires i < |chars| ==> chars[i].last == name[|name| - 1]
    ensures RunChars(chars, name, prefix) == if i < |chars| then RunNames(chars[i].names, name, prefix) else None
  {
    if i > 0 {
      RunCharsAt(chars[1..], name, prefix, i - 1);
    }
  }

  lemma {:induction false} RunCodeAt(code: seq<SizeCase>, name: string, prefix: string, i: nat)
    requires i <= |code| && Sized(code)
    requires forall j :: 0 <= j < i ==> code[j].size != |name|
    requires i < |code| ==> code[i].size == |name|
    ensures RunCode(code, name, prefix) == if i < |code| then RunChars(code[i].chars, name, prefix) else None
  {
    if i > 0 {
      RunCodeAt(code[1..], name, prefix, i - 1);
    }
  }

  /** Every listed name stands under its own length and last character. */
  lemma ListedNames(b: Index, names: seq<string>, unique: bool, code: seq<SizeCase>)
    requires Indexes(b, names, unique) && Emits(code, b)
    ensures Sized(code)
    ensures forall i, j :: 0 <= i < |code| && 0 <= j < |code[i].chars| ==>
              multiset(code[i].chars[j].names) == multiset(Matching(names, code[i].size, code[i].chars[j].last, unique))
    ensures forall i, j, k :: 0 <= i < |code| && 0 <= j < |code[i].chars| && 0 <= k < |code[i].chars[j].names| ==>
              Belongs(code[i].chars[j].names[k], code[i].size, code[i].chars[j].last)
  {
    forall i, j | 0 <= i < |code| && 0 <= j < |code[i].chars|
      ensures multiset(code[i].chars[j].names) == multiset(Matching(names, code[i].size, code[i].chars[j].last, unique))
      ensures forall k :: 0 <= k < |code[i].chars[j].names| ==>
                Belongs(code[i].chars[j].names[k], code[i].size, code[i].chars[j].last)
    {
      var size, cc := code[i].size, code[i].chars[j];
      assert Lists(code[i].chars, b[size]);
      assert At(b, size, cc.last) == Matching(names, size, cc.last, unique);
      forall k | 0 <= k < |cc.names| ensures Belongs(cc.names[k], size, cc.last) {
        assert cc.names[k] in multiset(cc.names);
        MatchingMembers(names, size, cc.last, unique, cc.names[k]);
      }
    }
  }

  /** A name of this length and last character is listed in the case of both exactly when it is in the list. */
  lemma ListedAt(names: seq<string>, unique: bool, cc: CharCase, name: string)
    requires name != []
    requires multiset(cc.names) == multiset(Matching(names, |name|, name[|name| - 1], unique))
    ensures name in cc.names <==> name in names
  {
    MatchingMembers(names, |name|, name[|name| - 1], unique, name);
    assert name in cc.names <==> name in multiset(cc.names);
    assert name in multiset(cc.names) <==> name in Matching(names, |name|, name[|name| - 1], unique);
  }

  /** The search the lookup stands for: the names one after another, whole. */
  function LinearSearch(names: seq<string>, name: string, prefix: string): Option<string>
  {
    if names == [] then None
    else if names[0] == name then Some(TokenOf(name, prefix))
    else LinearSearch(names[1..], name, prefix)
  }

  lemma {:induction false} LinearSearchFinds(names: seq<string>, name: string, prefix: string)
    ensures LinearSearch(names, name, prefix) == if name in names then Some(TokenOf(name, prefix)) else None
  {
    if names != [] {
      LinearSearchFinds(names[1..], name, prefix);
      assert names == [names[0]] + names[1..];
    }
  }

  lemma Unlisted(names: seq<string>, unique: bool, b: Index, name: string)
    requires Indexes(b, names, unique) && name != [] && !(|name| in b && name[|name| - 1] in b[|name|])
    ensures name !in names
  {
    var n, c := |name|, name[|name| - 1];
    assert At(b, n, c) == Matching(names, n, c, unique) == [];
    MatchingMembers(names, n, c, unique, name);
  }

  /** What the cases under the length of the input return. */
  lemma GroupIsSearch(names: seq<string>, unique: bool, chars: seq<CharCase>, group: Group, name: string,
                      prefix: string)
    requires name != [] && Lists(chars, group) && (name[|name| - 1] !in group ==> name !in names)
    requires forall j :: 0 <= j < |chars| ==>
               multiset(chars[j].names) == multiset(Matching(names, |name|, chars[j].last, unique))
    requires forall j, k :: 0 <= j < |chars| && 0 <= k < |chars[j].names| ==>
               |chars[j].names[k]| == |name| && Belongs(chars[j].names[k], |name|, chars[j].last)
    ensures RunChars(chars, name, prefix) == if name in names then Some(TokenOf(name, prefix)) else None
  {
    var c := name[|name| - 1];
    if c in group {
      var j :| 0 <= j < |chars| && chars[j].last == c;
      RunCharsAt(chars, name, prefix, j);
      RunNamesExact(chars[j].names, name, prefix);
      ListedAt(names, unique, chars[j], name);
    } else {
      RunCharsAt(chars, name, prefix, |chars|);
    }
  }

  lemma CodeIsSearch(names: seq<string>, unique: bool, b: Index, code: seq<SizeCase>, name: string, prefix: string)
    requires Indexes(b, names, unique) && Emits(code, b) && forall k :: 0 <= k < |names| ==> names[k] != []
    ensures Sized(code)
    ensures RunCode(code, name, prefix) == if name in names then Some(TokenOf(name, prefix)) else None
  {
    ListedNames(b, names, unique, code);
    if name != [] && !(|name| in b && name[|name| - 1] in b[|name|]) {
      Unlisted(names, unique, b, name);
    }
    if |name| in b {
      var i :| 0 <= i < |code| && code[i].size == |name|;
      RunCodeAt(code, name, prefix, i);
      GroupIsSearch(names, unique, code[i].chars, b[|name|], name, prefix);
    } else {
      RunCodeAt(code, name, prefix, |code|);
    }
  }

  /** The emitted lookup is linear search: for any list of names, with or without the removal of repetitions,
      whatever order the cases are emitted in, and any input. It returns a token exactly when the input is a listed
      name with that token, and fails exactly when it is not listed. */
  lemma LookupIsSearch(names: seq<string>, unique: bool, b: Index, code: seq<SizeCase>, name: string, prefix: string)
    requires Indexes(b, names, unique) && Emits(code, b) && forall k :: 0 <= k < |names| ==> names[k] != []
    ensures Sized(code)
    ensures RunCode(code, name, prefix) == LinearSearch(names, name, prefix)
    ensures forall token ::
              RunCode(code, name, prefix) == Some(token) <==> name in names && token == TokenOf(name, prefix)
    ensures RunCode(code, name, prefix) == None <==> name !in names
  {
    CodeIsSearch(names, unique, b, code, name, prefix);
    LinearSearchFinds(names, name, prefix);
  }

  /** `gen_index_header` on a list of names: the code it emits, in ascending order, answers every input as linear
      search does. */
  method GenIndexHeader(tokens: seq<string>, unique: bool, prefix: string) returns (res: Option<seq<SizeCase>>)
    ensures res.None? <==> exists k :: 0 <= k < |tokens| && tokens[k] == []
    ensures res.Some? ==> Sized(res.value) && InOrder(res.value)
    ensures res.Some? ==> forall name: string :: RunCode(res.value, name, prefix) == LinearSearch(tokens, name, prefix)
  {
    var b := BuildHeader(tokens, unique);
    if b.None? {
      return None;
    }
    var code := EmitLookup(b.value);
    forall name: string
      ensures Sized(code) && RunCode(code, name, prefix) == LinearSearch(tokens, name, prefix)
    {
      LookupIsSearch(tokens, unique, b.value, code, name, prefix);
    }
    assert Sized(code) by { ListedNames(b.value, tokens, unique, code); }
    res := Some(code);
  }
}
