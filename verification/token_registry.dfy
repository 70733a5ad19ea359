/** The webhook token registry: the `KNOWN_TOKENS` configuration string
    turned into a map from token to destination room and display name, and
    the set of rooms the bridge joins. */
module TokenRegistry {
  import opened TextUtil

  /** Where a token's messages go and under which name they appear. */
  datatype TokenEntry = TokenEntry(room: string, appName: string)

  /** What the parser makes of one group of the configuration string. */
  datatype GroupVerdict =
    | Blank                                        // empty after trimming: skipped silently
    | Malformed                                    // fewer than three comma-separated fields
    | Incomplete                                   // a field is empty after trimming
    | Accepted(token: string, entry: TokenEntry)

  /** The groups of a configuration string: newlines count as spaces and
      every single space separates two groups. */
  function Groups(rooms: string): seq<string>
  {
    Split(ReplaceChar(rooms, '\n', ' '), ' ')
  }

  function StripAll(ps: seq<string>): (r: seq<string>)
    ensures |r| == |ps|
    ensures forall k :: 0 <= k < |ps| ==> r[k] == Strip(ps[k])
  {
    seq(|ps|, k requires 0 <= k < |ps| => Strip(ps[k]))
  }

  /** One group: trimmed, split on the first two commas, each field trimmed. */
  function ClassifyGroup(raw: string): GroupVerdict
  {
    var pairs := Strip(raw);
    if pairs == "" then Blank
    else
      var parts := StripAll(SplitMax2(pairs, ','));
      if |parts| != 3 then Malformed
      else if parts[0] == "" || parts[1] == "" || parts[2] == "" then Incomplete
      else Accepted(parts[0], TokenEntry(parts[1], parts[2]))
  }

  /** The verdict on each group, in order. */
  function Verdicts(gs: seq<string>): (vs: seq<GroupVerdict>)
    ensures |vs| == |gs|
    ensures forall k :: 0 <= k < |gs| ==> vs[k] == ClassifyGroup(gs[k])
  {
    seq(|gs|, k requires 0 <= k < |gs| => ClassifyGroup(gs[k]))
  }

  /** The map built from a sequence of verdicts, left to right: an accepted
      group overwrites any earlier entry for its token. */
  function Build(vs: seq<GroupVerdict>): map<string, TokenEntry>
  {
    if vs == [] then map[] else Apply(Build(vs[..|vs| - 1]), vs[|vs| - 1])
  }

  /** The effect of one verdict on the map. */
  function Apply(known: map<string, TokenEntry>, v: GroupVerdict): map<string, TokenEntry>
  {
    match v
    case Accepted(token, entry) => known[token := entry]
    case _ => known
  }

  lemma BuildPrefix(vs: seq<GroupVerdict>, i: nat)
    requires i < |vs|
    ensures Build(vs[..i + 1]) == Apply(Build(vs[..i]), vs[i])
  {
    assert vs[..i + 1][..i] == vs[..i];
  }

  /** The registry a configuration string denotes. */
  function ParseSpec(rooms: string): map<string, TokenEntry>
  {
    if rooms == "" then map[] else Build(Verdicts(Groups(rooms)))
  }

  /** The parser: one pass over the groups, skipping blank, malformed and
      incomplete ones. */
  method ParseKnownTokens(rooms: string) returns (known: map<string, TokenEntry>)
    ensures known == ParseSpec(rooms)
  {
    known := map[];
    if rooms == "" {
      return;
    }
    var groups := Groups(rooms);
    ghost var verdicts := Verdicts(groups);
    for i := 0 to |groups|
      invariant known == Build(verdicts[..i])
    {
      BuildPrefix(verdicts, i);
      assert verdicts[i] == ClassifyGroup(groups[i]);
      var pairs := Strip(groups[i]);
      if pairs == "" {
        assert verdicts[i] == Blank;
        continue;
      }
      var parts := StripAll(SplitMax2(pairs, ','));
      if |parts| != 3 {
        assert verdicts[i] == Malformed;
        continue;
      }
      var token, room, appName := parts[0], parts[1], parts[2];
      if token == "" || room == "" || appName == "" {
        assert verdicts[i] == Incomplete;
        continue;
      }
      assert verdicts[i] == Accepted(token, TokenEntry(room, appName));
      known := known[token := TokenEntry(room, appName)];
    }
    assert verdicts[..|groups|] == verdicts;
  }

  /** An entry that can be written as one group `token,room,appName` and read
      back: fields non-empty, without whitespace at their ends, without the
      group separators, and with no comma in the first two fields. */
  predicate WellFormedEntry(token: string, entry: TokenEntry)
  {
    && token != "" && entry.room != "" && entry.appName != ""
    && Trimmed(token) && Trimmed(entry.room) && Trimmed(entry.appName)
    && ',' !in token && ',' !in entry.room
    && ' ' !in token && ' ' !in entry.room && ' ' !in entry.appName
    && '\n' !in token && '\n' !in entry.room && '\n' !in entry.appName
  }

  /** The configuration text of one entry. */
  function GroupText(token: string, entry: TokenEntry): string
  {
    Join([token, entry.room, entry.appName], ',')
  }

  lemma StripKeepsOut(s: string, c: char)
    requires c !in s
    ensures c !in Strip(s)
  {
    StripIsTrimmedSlice(s);
    var i, j :| 0 <= i <= j <= |s| && Strip(s) == s[i..j];
    assert forall k :: 0 <= k < |s[i..j]| ==> s[i..j][k] == s[i + k];
  }

  /** Accepted groups are well formed: the trimmed group is exactly three
      comma-separated fields, the first two without commas (the third may
      hold more), and the token, room and name are those fields trimmed,
      each non-empty. */
  lemma AcceptedFromThreeFields(raw: string, token: string, entry: TokenEntry)
    requires ClassifyGroup(raw) == Accepted(token, entry)
    ensures token != "" && entry.room != "" && entry.appName != ""
    ensures Trimmed(token) && Trimmed(entry.room) && Trimmed(entry.appName)
    ensures ',' !in token && ',' !in entry.room
    ensures exists f: seq<string> :: |f| == 3 && Join(f, ',') == Strip(raw)
              && ',' !in f[0] && ',' !in f[1]
              && Strip(f[0]) == token && Strip(f[1]) == entry.room && Strip(f[2]) == entry.appName
  {
    var f := SplitMax2(Strip(raw), ',');
    SplitMax2Law(Strip(raw), ',');
    StripIsTrimmedSlice(f[0]);
    StripIsTrimmedSlice(f[1]);
    StripIsTrimmedSlice(f[2]);
    StripKeepsOut(f[0], ',');
    StripKeepsOut(f[1], ',');
  }

  /** A well-formed entry written as a group is read back as that entry. */
  lemma GroupRoundTrip(token: string, entry: TokenEntry)
    requires WellFormedEntry(token, entry)
    ensures ClassifyGroup(GroupText(token, entry)) == Accepted(token, entry)
  {
    var g := GroupText(token, entry);
    GroupTextTrimmed(token, entry);
    StripTrimmed(g);
    GroupTextFields(token, entry);
    ClassifyFromFields(g, token, entry.room, entry.appName);
  }

  lemma ClassifyFromFields(g: string, token: string, room: string, appName: string)
    requires Strip(g) == g && g != ""
    requires SplitMax2(g, ',') == [token, room, appName]
    requires token != "" && room != "" && appName != ""
    requires Trimmed(token) && Trimmed(room) && Trimmed(appName)
    ensures ClassifyGroup(g) == Accepted(token, TokenEntry(room, appName))
  {
    StripTrimmed(token);
    StripTrimmed(room);
    StripTrimmed(appName);
    assert StripAll(SplitMax2(g, ',')) == [token, room, appName];
  }

  lemma GroupTextTrimmed(token: string, entry: TokenEntry)
    requires WellFormedEntry(token, entry)
    ensures Trimmed(GroupText(token, entry))
  {
    var g := GroupText(token, entry);
    Join3(token, entry.room, entry.appName, ',');
    assert g[0] == token[0];
    assert g[|g| - 1] == entry.appName[|entry.appName| - 1];
  }

  lemma GroupTextFields(token: string, entry: TokenEntry)
    requires ',' !in token && ',' !in entry.room
    ensures SplitMax2(GroupText(token, entry), ',') == [token, entry.room, entry.appName]
  {
    var g := GroupText(token, entry);
    var rest := (entry.room + [',']) + entry.appName;
    Join3(token, entry.room, entry.appName, ',');
    assert g == (token + [',']) + rest;
    IndexOfAfter(token, ',', rest);
    IndexOfAfter(entry.room, ',', entry.appName);
    assert g[|token| + 1..] == rest;
    assert rest[..|entry.room|] == entry.room;
    assert rest[|entry.room| + 1..] == entry.appName;
    assert g[..|token|] == token;
  }

  /** A non-blank group without commas has fewer than three fields. */
  lemma NoCommaMalformed(g: string)
    requires Strip(g) != "" && ',' !in g
    ensures ClassifyGroup(g) == Malformed
  {
    var pairs := Strip(g);
    StripKeepsOut(g, ',');
    IndexOfAbsent(pairs, ',');
    assert SplitMax2(pairs, ',') == [pairs];
  }

  /** Verdict `i` accepts `token`. */
  predicate AcceptsAt(vs: seq<GroupVerdict>, i: int, token: string)
  {
    0 <= i < |vs| && vs[i].Accepted? && vs[i].token == token
  }

  /** Verdict `i` is the last one that accepts `token`. */
  predicate LastAcceptedAt(vs: seq<GroupVerdict>, i: int, token: string)
  {
    AcceptsAt(vs, i, token) && forall j :: i < j < |vs| ==> !AcceptsAt(vs, j, token)
  }

  /** A token is registered exactly when some group is accepted for it, and
      it maps to the entry of the LAST such group: later duplicates win. */
  lemma {:induction false} LastWins(vs: seq<GroupVerdict>, token: string)
    ensures token in Build(vs) <==> exists i :: AcceptsAt(vs, i, token)
    ensures token in Build(vs) ==> exists i :: LastAcceptedAt(vs, i, token) && Build(vs)[token] == vs[i].entry
    ensures forall i :: LastAcceptedAt(vs, i, token) ==> token in Build(vs) && Build(vs)[token] == vs[i].entry
    decreases |vs|
  {
    if vs != [] {
      var n := |vs| - 1;
      var p := vs[..n];
      LastWins(p, token);
      assert forall i :: 0 <= i < n ==> vs[i] == p[i];
      if AcceptsAt(vs, n, token) {
        assert LastAcceptedAt(vs, n, token);
        forall i | LastAcceptedAt(vs, i, token) ensures i == n {
        }
      } else {
        assert token in Build(vs) <==> token in Build(p);
        assert token in Build(vs) ==> Build(vs)[token] == Build(p)[token];
        forall i | AcceptsAt(vs, i, token) ensures AcceptsAt(p, i, token) {
        }
        if token in Build(vs) {
          var i :| LastAcceptedAt(p, i, token) && Build(p)[token] == p[i].entry;
          assert LastAcceptedAt(vs, i, token);
        }
        forall i | LastAcceptedAt(vs, i, token)
          ensures token in Build(vs) && Build(vs)[token] == vs[i].entry
        {
          assert LastAcceptedAt(p, i, token);
        }
      }
    }
  }

  /** Duplicates in a configuration string: a token is registered exactly
      when one of its groups is accepted, and holds the entry of the last
      accepted group for it. */
  lemma ParsedLastWins(rooms: string, token: string)
    ensures token in ParseSpec(rooms) <==> exists i :: AcceptsAt(Verdicts(Groups(rooms)), i, token)
    ensures forall i :: LastAcceptedAt(Verdicts(Groups(rooms)), i, token) ==>
              token in ParseSpec(rooms) && ParseSpec(rooms)[token] == ClassifyGroup(Groups(rooms)[i]).entry
  {
    ParseIsBuild(rooms);
    LastWins(Verdicts(Groups(rooms)), token);
  }

  /** The empty setting is one blank group, so the fold over the verdicts
      gives the registry of every setting, the empty one included. */
  lemma ParseIsBuild(rooms: string)
    ensures ParseSpec(rooms) == Build(Verdicts(Groups(rooms)))
  {
    if rooms == "" {
      assert Groups(rooms) == [""];
      var vs := Verdicts([""]);
      assert vs == [Blank];
      assert vs[..0] == [];
    }
  }

  /** Every registered entry is well formed: it comes from a non-empty
      configuration, from a group accepted under the three-field rule, and
      holds no group separator. */
  lemma ParsedEntriesWellFormed(rooms: string, token: string)
    requires token in ParseSpec(rooms)
    ensures rooms != ""
    ensures WellFormedEntry(token, ParseSpec(rooms)[token])
    ensures exists g :: g in Groups(rooms) && ClassifyGroup(g) == Accepted(token, ParseSpec(rooms)[token])
  {
    var gs := Groups(rooms);
    var vs := Verdicts(gs);
    LastWins(vs, token);
    var i :| LastAcceptedAt(vs, i, token) && ParseSpec(rooms)[token] == vs[i].entry;
    var entry := ParseSpec(rooms)[token];
    assert ClassifyGroup(gs[i]) == Accepted(token, entry);
    AcceptedFromThreeFields(gs[i], token, entry);
    GroupsFree(rooms);
    assert gs[i] in gs;
    FieldsKeepOut(gs[i], token, entry, ' ');
    FieldsKeepOut(gs[i], token, entry, '\n');
  }

  /** No group holds a separator. */
  lemma GroupsFree(rooms: string)
    ensures forall g :: g in Groups(rooms) ==> ' ' !in g && '\n' !in g
  {
    var s := ReplaceChar(rooms, '\n', ' ');
    SplitPiecesFree(s, ' ');
    ReplaceCharAt(rooms, '\n', ' ');
    assert forall k :: 0 <= k < |s| ==> s[k] != '\n';
    SplitPiecesKeepOut(s, ' ', '\n');
  }

  /** A character absent from an accepted group is absent from its fields. */
  lemma FieldsKeepOut(g: string, token: string, entry: TokenEntry, c: char)
    requires ClassifyGroup(g) == Accepted(token, entry)
    requires c !in g
    ensures c !in token && c !in entry.room && c !in entry.appName
  {
    StripKeepsOut(g, c);
    var f := SplitMax2(Strip(g), ',');
    SplitMax2Law(Strip(g), ',');
    Join3(f[0], f[1], f[2], ',');
    assert f == [f[0], f[1], f[2]];
    assert Strip(g) == (f[0] + [',']) + ((f[1] + [',']) + f[2]);
    assert c !in f[0] && c !in f[1] && c !in f[2];
    StripKeepsOut(f[0], c);
    StripKeepsOut(f[1], c);
    StripKeepsOut(f[2], c);
  }

  /** Newlines and spaces are interchangeable as separators. */
  lemma NewlineIsSpace(rooms: string)
    ensures ParseSpec(rooms) == ParseSpec(ReplaceChar(rooms, '\n', ' '))
  {
    ReplaceCharIdempotent(rooms, '\n', ' ');
  }

  /** The configuration text of one group per entry. */
  function GroupTexts(entries: seq<(string, TokenEntry)>): (gs: seq<string>)
    ensures |gs| == |entries|
    ensures forall k :: 0 <= k < |entries| ==> gs[k] == GroupText(entries[k].0, entries[k].1)
  {
    seq(|entries|, k requires 0 <= k < |entries| => GroupText(entries[k].0, entries[k].1))
  }

  /** The map a list of entries denotes when later entries win. */
  function EntriesMap(entries: seq<(string, TokenEntry)>): map<string, TokenEntry>
  {
    if entries == [] then map[]
    else EntriesMap(entries[..|entries| - 1])[entries[|entries| - 1].0 := entries[|entries| - 1].1]
  }

  lemma {:induction false} BuildOfGroupTexts(entries: seq<(string, TokenEntry)>)
    requires forall k :: 0 <= k < |entries| ==> WellFormedEntry(entries[k].0, entries[k].1)
    ensures Build(Verdicts(GroupTexts(entries))) == EntriesMap(entries)
    decreases |entries|
  {
    if entries != [] {
      var n := |entries| - 1;
      BuildOfGroupTexts(entries[..n]);
      GroupRoundTrip(entries[n].0, entries[n].1);
      assert Verdicts(GroupTexts(entries))[..n] == Verdicts(GroupTexts(entries[..n]));
    }
  }

  /** Writing well-formed entries as a configuration string, one group each,
      separated by spaces or by newlines, and parsing it gives back the
      entries, the last one winning for a repeated token. */
  lemma ConfigRoundTrip(entries: seq<(string, TokenEntry)>, sep: char)
    requires sep == ' ' || sep == '\n'
    requires forall k :: 0 <= k < |entries| ==> WellFormedEntry(entries[k].0, entries[k].1)
    ensures ParseSpec(Join(GroupTexts(entries), sep)) == EntriesMap(entries)
  {
    if entries == [] {
      return;
    }
    var gs := GroupTexts(entries);
    var text := Join(gs, sep);
    forall g | g in gs ensures ' ' !in g && '\n' !in g {
      var k :| 0 <= k < |gs| && gs[k] == g;
      var t, e := entries[k].0, entries[k].1;
      Join3(t, e.room, e.appName, ',');
    }
    if sep == '\n' {
      ReplaceJoin(gs, '\n', ' ');
    } else {
      JoinKeepsOut(gs, ' ', '\n');
      ReplaceFree(text, '\n', ' ');
    }
    SplitJoin(gs, ' ');
    assert Groups(text) == gs;
    JoinHead(gs, sep);
    assert text != "";
    BuildOfGroupTexts(entries);
  }

  lemma {:induction false} JoinKeepsOut(ps: seq<string>, sep: char, c: char)
    requires c != sep
    requires forall p :: p in ps ==> c !in p
    ensures c !in Join(ps, sep)
    decreases |ps|
  {
    if |ps| > 1 {
      JoinKeepsOut(ps[1..], sep, c);
    }
  }

  lemma JoinHead(ps: seq<string>, sep: char)
    requires |ps| >= 1
    ensures |Join(ps, sep)| >= |ps[0]|
  {
  }

  /** A display name written with a space, `token,room,First Second`: the
      space separates groups, so the entry gets the name `First` and the
      group `Second` is skipped as malformed. */
  lemma SpaceEndsDisplayName(token: string, entry: TokenEntry, second: string)
    requires WellFormedEntry(token, entry)
    requires second != "" && Trimmed(second)
    requires ',' !in second && ' ' !in second && '\n' !in second
    ensures ParseSpec(GroupText(token, entry) + " " + second) == map[token := entry]
  {
    var g := GroupText(token, entry);
    TwoVerdicts(token, entry, second);
    TwoGroups(g, second);
    var vs := [Accepted(token, entry), Malformed];
    assert ParseSpec(g + " " + second) == Build(vs);
    assert vs[..1] == [vs[0]];
    assert Build(vs) == Build([vs[0]]);
    assert [vs[0]][..0] == [];
  }

  lemma TwoGroups(g: string, second: string)
    requires ' ' !in g && '\n' !in g && ' ' !in second && '\n' !in second
    ensures g + " " + second != ""
    ensures Groups(g + " " + second) == [g, second]
  {
    var text := g + " " + second;
    var gs := [g, second];
    assert Join(gs, ' ') == text by {
      assert gs[1..] == [second];
    }
    JoinKeepsOut(gs, ' ', '\n');
    ReplaceFree(text, '\n', ' ');
    SplitJoin(gs, ' ');
  }

  lemma TwoVerdicts(token: string, entry: TokenEntry, second: string)
    requires WellFormedEntry(token, entry)
    requires second != "" && Trimmed(second) && ',' !in second
    ensures ' ' !in GroupText(token, entry) && '\n' !in GroupText(token, entry)
    ensures Verdicts([GroupText(token, entry), second]) == [Accepted(token, entry), Malformed]
  {
    var g := GroupText(token, entry);
    var fields := [token, entry.room, entry.appName];
    JoinKeepsOut(fields, ',', ' ');
    JoinKeepsOut(fields, ',', '\n');
    GroupRoundTrip(token, entry);
    StripTrimmed(second);
    NoCommaMalformed(second);
    assert Verdicts([g, second])[0] == ClassifyGroup(g);
    assert Verdicts([g, second])[1] == ClassifyGroup(second);
  }

  /** The rooms the bridge must join: the admin room and the room of every
      registered token. */
  function KnownRooms(adminRoom: string, known: map<string, TokenEntry>): set<string>
  {
    {adminRoom} + set token | token in known :: known[token].room
  }

  /** Parsing followed by the join-set: the admin room, and the room of a
      group exactly when that group is the last one accepted for its token.
      A room named only by an overridden duplicate is not joined. */
  lemma ParsedJoinSet(adminRoom: string, rooms: string, room: string)
    ensures room in KnownRooms(adminRoom, ParseSpec(rooms)) <==>
              room == adminRoom
              || exists i, token :: LastAcceptedAt(Verdicts(Groups(rooms)), i, token)
                                    && Verdicts(Groups(rooms))[i].entry.room == room
  {
    var vs := Verdicts(Groups(rooms));
    var known := ParseSpec(rooms);
    ParseIsBuild(rooms);
    if room in KnownRooms(adminRoom, known) && room != adminRoom {
      var token :| token in known && known[token].room == room;
      LastWins(vs, token);
    }
    if exists i, token :: LastAcceptedAt(vs, i, token) && vs[i].entry.room == room {
      var i, token :| LastAcceptedAt(vs, i, token) && vs[i].entry.room == room;
      LastWins(vs, token);
      assert known[token].room == room;
    }
  }
}
