/** NFSv4 ACLs as Windows DACLs, daemon/acl.c: access masks, inheritance flags,
    and the two passes that turn a list of NFSv4 entries into a DACL. */
module Acls {
  import opened Lists

  /** A 32-bit mask, as the set of the numbers of its bits. */
  type Mask = set<nat>

  // Rights. The individual Windows rights are the same bits as the NFSv4 ones.

  const READ_DATA := 0            // FILE_READ_DATA, FILE_LIST_DIRECTORY
  const WRITE_DATA := 1           // FILE_WRITE_DATA, FILE_ADD_FILE
  const APPEND_DATA := 2          // FILE_APPEND_DATA, FILE_ADD_SUBDIRECTORY
  const READ_NAMED_ATTRS := 3     // FILE_READ_EA
  const WRITE_NAMED_ATTRS := 4    // FILE_WRITE_EA
  const EXECUTE := 5              // FILE_EXECUTE, FILE_TRAVERSE
  const DELETE_CHILD := 6         // FILE_DELETE_CHILD
  const READ_ATTRIBUTES := 7      // FILE_READ_ATTRIBUTES
  const WRITE_ATTRIBUTES := 8     // FILE_WRITE_ATTRIBUTES
  const DELETE := 16              // DELETE
  const READ_ACL := 17            // READ_CONTROL
  const WRITE_ACL := 18           // WRITE_DAC
  const WRITE_OWNER := 19         // WRITE_OWNER
  const SYNCHRONIZE := 20         // SYNCHRONIZE

  const GENERIC_ALL := 28
  const GENERIC_EXECUTE := 29
  const GENERIC_WRITE := 30
  const GENERIC_READ := 31

  const ALL_FILE: Mask := {READ_DATA, WRITE_DATA, APPEND_DATA, READ_NAMED_ATTRS, WRITE_NAMED_ATTRS, EXECUTE, READ_ATTRIBUTES,
                           WRITE_ATTRIBUTES, DELETE, READ_ACL, WRITE_ACL, WRITE_OWNER, SYNCHRONIZE}
  const ALL_DIR: Mask := ALL_FILE + {DELETE_CHILD}
  const READ_MASK: Mask := {READ_DATA, READ_NAMED_ATTRS, READ_ATTRIBUTES, READ_ACL, SYNCHRONIZE}
  const WRITE_MASK: Mask := {WRITE_DATA, WRITE_NAMED_ATTRS, WRITE_ATTRIBUTES, READ_ACL, SYNCHRONIZE}
  const EXECUTE_MASK: Mask := {EXECUTE, READ_ATTRIBUTES, READ_ACL, SYNCHRONIZE}

  function All(isDir: bool): Mask {
    if isDir then ALL_DIR else ALL_FILE
  }

  /** A generic mask without the bits that the server does not report. */
  function Reported(bits: Mask, namedAttrs: bool): Mask {
    if namedAttrs then bits else bits - {READ_NAMED_ATTRS, WRITE_NAMED_ATTRS, WRITE_ATTRIBUTES}
  }

  function GenericBits(mask: Mask, isDir: bool, namedAttrs: bool): Mask {
    if Reported(All(isDir), namedAttrs) <= mask then {GENERIC_ALL}
    else
      (if Reported(READ_MASK, namedAttrs) <= mask then {GENERIC_READ} else {})
      + (if Reported(WRITE_MASK, namedAttrs) <= mask then {GENERIC_WRITE} else {})
      + (if Reported(EXECUTE_MASK, namedAttrs) <= mask then {GENERIC_EXECUTE} else {})
  }

  /** What map_nfs4acemask2winaccessmask computes: the individual rights, except
      DELETE_CHILD on anything but a directory, and generic rights. */
  function WinMask(mask: Mask, isDir: bool, namedAttrs: bool): Mask {
    GenericBits(mask, isDir, namedAttrs) + (mask * All(isDir))
  }

  method MapGeneric(mask: Mask, isDir: bool, namedAttrs: bool) returns (win: Mask)
    ensures win == GenericBits(mask, isDir, namedAttrs)
  {
    win := {};
    if Reported(All(isDir), namedAttrs) <= mask {
      win := win + {GENERIC_ALL};
    }
    if GENERIC_ALL !in win {
      if Reported(READ_MASK, namedAttrs) <= mask {
        win := win + {GENERIC_READ};
      }
      if Reported(WRITE_MASK, namedAttrs) <= mask {
        win := win + {GENERIC_WRITE};
      }
      if Reported(EXECUTE_MASK, namedAttrs) <= mask {
        win := win + {GENERIC_EXECUTE};
      }
    }
  }

  /** One right: `if (nfs4_mask & bit) *win_mask |= bit`. */
  function Added(win: Mask, mask: Mask, bit: nat): Mask {
    if bit in mask then win + {bit} else win
  }

  method AddDataRights(start: Mask, mask: Mask, isDir: bool) returns (win: Mask)
    ensures win == start + mask * ({READ_DATA, WRITE_DATA, APPEND_DATA, EXECUTE} + if isDir then {DELETE_CHILD} else {})
  {
    win := Added(start, mask, READ_DATA);
    win := Added(win, mask, WRITE_DATA);
    win := Added(win, mask, APPEND_DATA);
    if isDir {
      win := Added(win, mask, DELETE_CHILD);
    }
    win := Added(win, mask, EXECUTE);
  }

  method AddAttributeRights(start: Mask, mask: Mask) returns (win: Mask)
    ensures win == start + mask * {READ_NAMED_ATTRS, WRITE_NAMED_ATTRS, READ_ATTRIBUTES, WRITE_ATTRIBUTES}
  {
    win := Added(start, mask, READ_NAMED_ATTRS);
    win := Added(win, mask, WRITE_NAMED_ATTRS);
    win := Added(win, mask, READ_ATTRIBUTES);
    win := Added(win, mask, WRITE_ATTRIBUTES);
  }

  method AddControlRights(start: Mask, mask: Mask) returns (win: Mask)
    ensures win == start + mask * {READ_ACL, WRITE_ACL, WRITE_OWNER, SYNCHRONIZE, DELETE}
  {
    win := Added(start, mask, READ_ACL);
    win := Added(win, mask, WRITE_ACL);
    win := Added(win, mask, WRITE_OWNER);
    win := Added(win, mask, SYNCHRONIZE);
    win := Added(win, mask, DELETE);
  }

  lemma AllRights(isDir: bool, data: Mask, attributes: Mask, control: Mask)
    requires data == {READ_DATA, WRITE_DATA, APPEND_DATA, EXECUTE} + if isDir then {DELETE_CHILD} else {}
    requires attributes == {READ_NAMED_ATTRS, WRITE_NAMED_ATTRS, READ_ATTRIBUTES, WRITE_ATTRIBUTES}
    requires control == {READ_ACL, WRITE_ACL, WRITE_OWNER, SYNCHRONIZE, DELETE}
    ensures All(isDir) == data + attributes + control
  {
  }

  lemma Gathered(start: Mask, mask: Mask, a: Mask, b: Mask, c: Mask)
    ensures start + mask * a + mask * b + mask * c == start + mask * (a + b + c)
  {
  }

  /** map_nfs4acemask2winaccessmask, right by right */
  method MapMask(mask: Mask, isDir: bool, namedAttrs: bool) returns (win: Mask)
    ensures win == WinMask(mask, isDir, namedAttrs)
  {
    hide GenericBits, All;
    ghost var data := {READ_DATA, WRITE_DATA, APPEND_DATA, EXECUTE} + if isDir then {DELETE_CHILD} else {};
    ghost var attributes := {READ_NAMED_ATTRS, WRITE_NAMED_ATTRS, READ_ATTRIBUTES, WRITE_ATTRIBUTES};
    ghost var control := {READ_ACL, WRITE_ACL, WRITE_OWNER, SYNCHRONIZE, DELETE};
    AllRights(isDir, data, attributes, control);
    Gathered(GenericBits(mask, isDir, namedAttrs), mask, data, attributes, control);
    win := MapGeneric(mask, isDir, namedAttrs);
    win := AddDataRights(win, mask, isDir);
    win := AddAttributeRights(win, mask);
    win := AddControlRights(win, mask);
  }

  // What the generic rights stand for

  /** The file rights that Windows takes a generic right to mean: FILE_ALL_ACCESS,
      FILE_GENERIC_READ, FILE_GENERIC_WRITE and FILE_GENERIC_EXECUTE. */
  function Meaning(bit: nat): Mask {
    if bit == GENERIC_ALL then {0, 1, 2, 3, 4, 5, 6, 7, 8, DELETE, READ_ACL, WRITE_ACL, WRITE_OWNER, SYNCHRONIZE}
    else if bit == GENERIC_READ then {READ_DATA, READ_NAMED_ATTRS, READ_ATTRIBUTES, READ_ACL, SYNCHRONIZE}
    else if bit == GENERIC_WRITE then {WRITE_DATA, APPEND_DATA, WRITE_NAMED_ATTRS, WRITE_ATTRIBUTES, READ_ACL, SYNCHRONIZE}
    else if bit == GENERIC_EXECUTE then {EXECUTE, READ_ATTRIBUTES, READ_ACL, SYNCHRONIZE}
    else {bit}
  }

  ghost predicate Grants(win: Mask, right: nat) {
    exists bit :: bit in win && right in Meaning(bit)
  }

  /** The masks whose generic rights stand for nothing that the NFSv4 mask does
      not hold. With named attributes only one family is left out: all of
      ACE4_GENERIC_WRITE but not APPEND_DATA. */
  predicate Faithful(mask: Mask, isDir: bool, namedAttrs: bool) {
    if namedAttrs then !(WRITE_MASK <= mask && APPEND_DATA !in mask)
    else if Reported(All(isDir), false) <= mask then {READ_NAMED_ATTRS, WRITE_NAMED_ATTRS, WRITE_ATTRIBUTES} <= mask
    else
      && (Reported(READ_MASK, false) <= mask ==> READ_NAMED_ATTRS in mask)
      && (Reported(WRITE_MASK, false) <= mask ==> {WRITE_NAMED_ATTRS, WRITE_ATTRIBUTES, APPEND_DATA} <= mask)
  }

  /** No generic bit stands for an individual right that the mask lacks. */
  ghost predicate AddsNothing(generic: Mask, mask: Mask, isDir: bool) {
    forall bit :: bit in generic ==> Meaning(bit) * All(isDir) <= mask
  }

  lemma AllAddsNothing(mask: Mask, isDir: bool, namedAttrs: bool)
    requires Reported(All(isDir), namedAttrs) <= mask
    ensures Meaning(GENERIC_ALL) * All(isDir) <= mask <==> (namedAttrs || {READ_NAMED_ATTRS, WRITE_NAMED_ATTRS, WRITE_ATTRIBUTES} <= mask)
  {
    var rest := {READ_NAMED_ATTRS, WRITE_NAMED_ATTRS, WRITE_ATTRIBUTES};
    assert All(isDir) <= Reported(All(isDir), namedAttrs) + (if namedAttrs then {} else rest);
    assert rest <= All(isDir);
    assert Meaning(GENERIC_ALL) * All(isDir) == All(isDir);
  }

  lemma ReadAddsNothing(mask: Mask, isDir: bool, namedAttrs: bool)
    requires Reported(READ_MASK, namedAttrs) <= mask
    ensures Meaning(GENERIC_READ) * All(isDir) <= mask <==> (namedAttrs || READ_NAMED_ATTRS in mask)
  {
    assert Meaning(GENERIC_READ) * All(isDir) == READ_MASK;
    assert READ_MASK <= Reported(READ_MASK, namedAttrs) + (if namedAttrs then {} else {READ_NAMED_ATTRS});
    assert READ_NAMED_ATTRS in READ_MASK;
  }

  lemma WriteAddsNothing(mask: Mask, isDir: bool, namedAttrs: bool)
    requires Reported(WRITE_MASK, namedAttrs) <= mask
    ensures Meaning(GENERIC_WRITE) * All(isDir) <= mask <==>
            APPEND_DATA in mask && (namedAttrs || {WRITE_NAMED_ATTRS, WRITE_ATTRIBUTES} <= mask)
  {
    assert Meaning(GENERIC_WRITE) * All(isDir) == WRITE_MASK + {APPEND_DATA};
    assert WRITE_MASK <= Reported(WRITE_MASK, namedAttrs) + (if namedAttrs then {} else {WRITE_NAMED_ATTRS, WRITE_ATTRIBUTES});
    assert {WRITE_NAMED_ATTRS, WRITE_ATTRIBUTES} <= WRITE_MASK;
  }

  lemma ExecuteAddsNothing(mask: Mask, isDir: bool, namedAttrs: bool)
    requires Reported(EXECUTE_MASK, namedAttrs) <= mask
    ensures Meaning(GENERIC_EXECUTE) * All(isDir) <= mask
  {
    assert Meaning(GENERIC_EXECUTE) * All(isDir) == EXECUTE_MASK;
    assert EXECUTE_MASK == Reported(EXECUTE_MASK, namedAttrs);
  }

  lemma WriteInAll(mask: Mask, isDir: bool, namedAttrs: bool)
    requires Reported(All(isDir), namedAttrs) <= mask
    ensures APPEND_DATA in mask
  {
    assert APPEND_DATA in Reported(All(isDir), namedAttrs);
  }

  lemma AddsNothingIff(mask: Mask, isDir: bool, namedAttrs: bool)
    ensures AddsNothing(GenericBits(mask, isDir, namedAttrs), mask, isDir) <==> Faithful(mask, isDir, namedAttrs)
  {
    var generic := GenericBits(mask, isDir, namedAttrs);
    assert Reported(WRITE_MASK, true) == WRITE_MASK;
    hide Reported, All, Meaning;
    if Reported(All(isDir), namedAttrs) <= mask {
      AllAddsNothing(mask, isDir, namedAttrs);
      WriteInAll(mask, isDir, namedAttrs);
      assert GENERIC_ALL in generic;
    } else {
      if Reported(READ_MASK, namedAttrs) <= mask {
        ReadAddsNothing(mask, isDir, namedAttrs);
        assert GENERIC_READ in generic;
      }
      if Reported(WRITE_MASK, namedAttrs) <= mask {
        WriteAddsNothing(mask, isDir, namedAttrs);
        assert GENERIC_WRITE in generic;
      }
      if Reported(EXECUTE_MASK, namedAttrs) <= mask {
        ExecuteAddsNothing(mask, isDir, namedAttrs);
      }
    }
  }

  /** The Windows mask grants exactly the individual rights of the NFSv4 mask if
      and only if the mask is one of the faithful ones. */
  lemma GrantsTheSameIff(mask: Mask, isDir: bool, namedAttrs: bool)
    ensures (forall right :: right in All(isDir) ==> (Grants(WinMask(mask, isDir, namedAttrs), right) <==> right in mask))
            <==> Faithful(mask, isDir, namedAttrs)
  {
    var win, generic := WinMask(mask, isDir, namedAttrs), GenericBits(mask, isDir, namedAttrs);
    AddsNothingIff(mask, isDir, namedAttrs);
    hide GenericBits, Faithful;
    forall right | right in All(isDir) && right in mask ensures Grants(win, right) {
      RightMeansItself(isDir, right);
      assert right in win;
    }
    hide All, Meaning;
    if AddsNothing(generic, mask, isDir) {
      forall right | right in All(isDir) && Grants(win, right) ensures right in mask {
        var bit :| bit in win && right in Meaning(bit);
        if bit !in generic {
          RightMeansItself(isDir, bit);
        }
      }
    } else {
      var bit :| bit in generic && !(Meaning(bit) * All(isDir) <= mask);
      var right :| right in Meaning(bit) * All(isDir) && right !in mask;
      assert Grants(win, right);
    }
  }

  lemma RightMeansItself(isDir: bool, right: nat)
    requires right in All(isDir)
    ensures Meaning(right) == {right}
  {
  }

  /** ACE4_GENERIC_WRITE alone becomes GENERIC_WRITE, which also lets append. */
  lemma GenericWriteAddsAppend()
    ensures APPEND_DATA !in WRITE_MASK && Grants(WinMask(WRITE_MASK, false, true), APPEND_DATA)
  {
    var win := WinMask(WRITE_MASK, false, true);
    assert EXECUTE !in WRITE_MASK && EXECUTE in Reported(All(false), true);
    assert GENERIC_WRITE in win && APPEND_DATA in Meaning(GENERIC_WRITE);
  }

  // Inheritance flags

  const FILE_INHERIT := 0         // OBJECT_INHERIT_ACE
  const DIRECTORY_INHERIT := 1    // CONTAINER_INHERIT_ACE
  const NO_PROPAGATE := 2         // NO_PROPAGATE_INHERIT_ACE
  const INHERIT_ONLY := 3         // INHERIT_ONLY_ACE
  const WIN_INHERITED := 4        // INHERITED_ACE
  const IDENTIFIER_GROUP := 6
  const INHERITED := 7

  /** map_nfs4aceflags2winaceflags */
  function WinFlags(flags: Mask): Mask {
    (flags * {FILE_INHERIT, DIRECTORY_INHERIT, NO_PROPAGATE, INHERIT_ONLY}) + (if INHERITED in flags then {WIN_INHERITED} else {})
  }

  /** map_winace2nfs4aceflags */
  function NfsFlags(win: Mask): Mask {
    (win * {FILE_INHERIT, DIRECTORY_INHERIT, NO_PROPAGATE, INHERIT_ONLY}) + (if WIN_INHERITED in win then {INHERITED} else {})
  }

  /** The two flag mappings invert each other on the flags that both sides know. */
  lemma FlagsRoundTrip(flags: Mask)
    ensures NfsFlags(WinFlags(flags)) == flags * {FILE_INHERIT, DIRECTORY_INHERIT, NO_PROPAGATE, INHERIT_ONLY, INHERITED}
    ensures WinFlags(NfsFlags(flags)) == flags * {FILE_INHERIT, DIRECTORY_INHERIT, NO_PROPAGATE, INHERIT_ONLY, WIN_INHERITED}
    ensures WinFlags(flags) <= {FILE_INHERIT, DIRECTORY_INHERIT, NO_PROPAGATE, INHERIT_ONLY, WIN_INHERITED}
    ensures NfsFlags(flags) <= {FILE_INHERIT, DIRECTORY_INHERIT, NO_PROPAGATE, INHERIT_ONLY, INHERITED}
    ensures forall f :: f in {FILE_INHERIT, DIRECTORY_INHERIT, NO_PROPAGATE, INHERIT_ONLY} ==>
              (f in WinFlags(flags) <==> f in flags) && (f in NfsFlags(flags) <==> f in flags)
    ensures WIN_INHERITED in WinFlags(flags) <==> INHERITED in flags
  {
  }

  // Who an entry is for

  datatype Sid = CreatorOwner | CreatorGroup | World | Null | Account(id: nat)

  datatype AceType = Allowed | Denied | OtherType(code: nat)
  datatype NfsAce = NfsAce(acetype: AceType, flags: Mask, mask: Mask, who: string)
  datatype WinAce = WinAce(allow: bool, flags: Mask, mask: Mask, sid: Sid)

  /** convert_nfs4name_2_user_domain: the part before the '@' */
  function User(who: string): string {
    if who == "" || who[0] == '@' then "" else [who[0]] + User(who[1..])
  }

  /** The domain variable is set only by a name that has an '@', and keeps the
      value of an earlier entry otherwise. */
  function Domain(who: string, before: Option<string>): Option<string> {
    if |User(who)| < |who| then Some(who[|User(who)| + 1..]) else before
  }

  /** check_4_special_identifiers: the comparisons look at a prefix only. */
  function Special(user: string): Option<Sid> {
    if "OWNER" <= user || "CREATOR OWNER" <= user then Some(CreatorOwner)
    else if "GROUP" <= user || "CREATOR GROUP" <= user then Some(CreatorGroup)
    else if "EVERYONE" <= user || "Everyone" <= user then Some(World)
    else if "nobody" <= user || "NULL SID" <= user then Some(Null)
    else None
  }

  predicate IsGroup(ace: NfsAce, domain: Option<string>) {
    IDENTIFIER_GROUP in ace.flags
    || (domain == Some("BUILTIN") && (User(ace.who) == "Users" || User(ace.who) == "Administrators"))
  }

  /** The lookup of a user or group name at the identity mapper. */
  type NameMap = (string, bool) -> Option<nat>

  function SidOf(ace: NfsAce, domain: Option<string>, names: NameMap): Option<Sid> {
    var special := Special(User(ace.who));
    if special.Some? then special
    else
      match names(User(ace.who), IsGroup(ace, domain))
      case None => None
      case Some(id) => Some(Account(id))
  }

  predicate IsNobody(ace: NfsAce) {
    User(ace.who) == "nobody"
  }

  /** The SID that the first pass gives an entry. */
  function CodedSid(ace: NfsAce, domain: Option<string>, names: NameMap): Option<Sid> {
    if IsNobody(ace) then Some(Null) else SidOf(ace, domain, names)
  }

  /** An entry with the SID that stands for its "who". */
  datatype Entry = Entry(ace: NfsAce, sid: Sid)

  /** The entries with their SIDs, or None if a name cannot be mapped. */
  function Resolve(aces: seq<NfsAce>, domain: Option<string>, names: NameMap): Option<seq<Entry>> {
    if aces == [] then Some([])
    else
      var next := Domain(aces[0].who, domain);
      var sid := CodedSid(aces[0], next, names);
      var rest := Resolve(aces[1..], next, names);
      if sid.None? || rest.None? then None else Some([Entry(aces[0], sid.value)] + rest.value)
  }

  function Kept(entries: seq<Entry>): seq<Entry> {
    if entries == [] then []
    else (if IsNobody(entries[0].ace) then [] else [entries[0]]) + Kept(entries[1..])
  }

  function ToWin(e: Entry, isDir: bool, namedAttrs: bool): WinAce {
    WinAce(e.ace.acetype.Allowed?, WinFlags(e.ace.flags), WinMask(e.ace.mask, isDir, namedAttrs), e.sid)
  }

  function Dacl(entries: seq<Entry>, isDir: bool, namedAttrs: bool): seq<WinAce> {
    if entries == [] then [] else [ToWin(entries[0], isDir, namedAttrs)] + Dacl(entries[1..], isDir, namedAttrs)
  }

  predicate Supported(entries: seq<Entry>) {
    forall i :: 0 <= i < |entries| ==> !entries[i].ace.acetype.OtherType?
  }

  // Deciding a request

  /** In-order evaluation of an NFSv4 ACL for one right, section 6.2.1 of RFC
      8881: the first entry for the requester that speaks of the right decides.
      Entries that are only inherited do not count. */
  function DecideNfs(entries: seq<Entry>, member: Sid -> bool, right: nat): Option<bool> {
    if entries == [] then None
    else
      var ace := entries[0].ace;
      if member(entries[0].sid) && INHERIT_ONLY !in ace.flags && right in ace.mask && !ace.acetype.OtherType? then Some(ace.acetype.Allowed?)
      else DecideNfs(entries[1..], member, right)
  }

  function DecideWin(dacl: seq<WinAce>, member: Sid -> bool, right: nat): Option<bool> {
    if dacl == [] then None
    else if member(dacl[0].sid) && INHERIT_ONLY !in dacl[0].flags && right in dacl[0].mask then Some(dacl[0].allow)
    else DecideWin(dacl[1..], member, right)
  }

  predicate NobodyIsNull(entries: seq<Entry>) {
    forall i :: 0 <= i < |entries| && IsNobody(entries[i].ace) ==> entries[i].sid == Null
  }

  lemma {:induction false} SkippingChangesNothing(entries: seq<Entry>, member: Sid -> bool, right: nat)
    requires !member(Null) && NobodyIsNull(entries)
    ensures DecideNfs(Kept(entries), member, right) == DecideNfs(entries, member, right)
  {
    if entries != [] {
      SkippingChangesNothing(entries[1..], member, right);
      if IsNobody(entries[0].ace) {
        assert Kept(entries) == Kept(entries[1..]);
      } else {
        assert Kept(entries)[1..] == Kept(entries[1..]);
      }
    }
  }

  lemma SameRight(e: Entry, isDir: bool, namedAttrs: bool, right: nat)
    requires right in All(isDir)
    ensures right in ToWin(e, isDir, namedAttrs).mask <==> right in e.ace.mask
    ensures INHERIT_ONLY in ToWin(e, isDir, namedAttrs).flags <==> INHERIT_ONLY in e.ace.flags
  {
  }

  lemma {:induction false} DaclDecides(entries: seq<Entry>, isDir: bool, namedAttrs: bool, member: Sid -> bool, right: nat)
    requires Supported(entries) && right in All(isDir)
    ensures DecideWin(Dacl(entries, isDir, namedAttrs), member, right) == DecideNfs(entries, member, right)
  {
    if entries != [] {
      SameRight(entries[0], isDir, namedAttrs, right);
      DaclDecides(entries[1..], isDir, namedAttrs, member, right);
      assert Dacl(entries, isDir, namedAttrs)[1..] == Dacl(entries[1..], isDir, namedAttrs);
    }
  }

  lemma {:induction false} ResolvedNobody(aces: seq<NfsAce>, domain: Option<string>, names: NameMap)
    requires Resolve(aces, domain, names).Some?
    ensures var entries := Resolve(aces, domain, names).value;
      |entries| == |aces| && (forall i :: 0 <= i < |entries| ==> entries[i].ace == aces[i]) && NobodyIsNull(entries)
  {
    if aces != [] {
      ResolvedNobody(aces[1..], Domain(aces[0].who, domain), names);
    }
  }

  /** Evaluation with the generic rights spelled out. */
  ghost function DecideExpanded(dacl: seq<WinAce>, member: Sid -> bool, right: nat): Option<bool> {
    if dacl == [] then None
    else if member(dacl[0].sid) && INHERIT_ONLY !in dacl[0].flags && Grants(dacl[0].mask, right) then Some(dacl[0].allow)
    else DecideExpanded(dacl[1..], member, right)
  }

  /** Spelling out the generic rights changes no decision if every mask is faithful. */
  lemma {:induction false} ExpandedDecides(entries: seq<Entry>, isDir: bool, namedAttrs: bool, member: Sid -> bool, right: nat)
    requires Supported(entries) && right in All(isDir)
    requires forall i :: 0 <= i < |entries| ==> Faithful(entries[i].ace.mask, isDir, namedAttrs)
    ensures DecideExpanded(Dacl(entries, isDir, namedAttrs), member, right) == DecideNfs(entries, member, right)
  {
    hide All, Faithful, WinMask, Grants;
    if entries != [] {
      GrantsTheSameIff(entries[0].ace.mask, isDir, namedAttrs);
      SameRight(entries[0], isDir, namedAttrs, right);
      ExpandedDecides(entries[1..], isDir, namedAttrs, member, right);
      assert Dacl(entries, isDir, namedAttrs)[1..] == Dacl(entries[1..], isDir, namedAttrs);
    }
  }

  /** With the SIDs that the first pass finds, the DACL decides every individual
      right as the NFSv4 ACL does, for every requester who is not "nobody". */
  lemma ResolvedDecides(aces: seq<NfsAce>, names: NameMap, isDir: bool, namedAttrs: bool, member: Sid -> bool, right: nat)
    requires Resolve(aces, None, names).Some? && Supported(Kept(Resolve(aces, None, names).value))
    requires right in All(isDir) && !member(Null)
    ensures var entries := Resolve(aces, None, names).value;
      DecideWin(Dacl(Kept(entries), isDir, namedAttrs), member, right) == DecideNfs(entries, member, right)
  {
    hide All;
    var entries := Resolve(aces, None, names).value;
    ResolvedNobody(aces, None, names);
    DaclDecides(Kept(entries), isDir, namedAttrs, member, right);
    SkippingChangesNothing(entries, member, right);
  }

  ghost predicate SameDecision(entries: seq<Entry>, isDir: bool, namedAttrs: bool, member: Sid -> bool, right: nat) {
    DecideWin(Dacl(Kept(entries), isDir, namedAttrs), member, right) == DecideNfs(entries, member, right)
  }

  /** Entries for "nobody" are left out of the DACL, which goes unnoticed, for
      any right, exactly by the requesters they are not for. */
  lemma SkippingIff(isDir: bool, namedAttrs: bool, member: Sid -> bool, right: nat)
    requires right in All(isDir)
    ensures (forall entries: seq<Entry> :: NobodyIsNull(entries) && Supported(Kept(entries)) ==>
               SameDecision(entries, isDir, namedAttrs, member, right))
            <==> !member(Null)
  {
    hide All;
    if member(Null) {
      var entries := [Entry(NfsAce(Allowed, {}, {right}, "nobody"), Null)];
      assert User("nobody") == "nobody" by { WholeUser("nobody"); }
      assert Kept(entries) == [];
      assert DecideNfs(entries, member, right) == Some(true);
      assert !SameDecision(entries, isDir, namedAttrs, member, right);
    } else {
      forall entries: seq<Entry> | NobodyIsNull(entries) && Supported(Kept(entries))
        ensures SameDecision(entries, isDir, namedAttrs, member, right)
      {
        DaclDecides(Kept(entries), isDir, namedAttrs, member, right);
        SkippingChangesNothing(entries, member, right);
      }
    }
  }

  // The SID that a name stands for by itself

  lemma {:induction false} UserPrefix(who: string)
    ensures User(who) <= who
  {
    if who != "" && who[0] != '@' {
      UserPrefix(who[1..]);
    }
  }

  lemma {:induction false} WholeUser(who: string)
    requires '@' !in who
    ensures User(who) == who
  {
    if who != "" {
      WholeUser(who[1..]);
    }
  }

  /** A name with a domain is split at its first '@'. */
  lemma {:induction false} SplitName(user: string, domain: string, before: Option<string>)
    requires '@' !in user
    ensures User(user + "@" + domain) == user && Domain(user + "@" + domain, before) == Some(domain)
  {
    var who := user + "@" + domain;
    SplitUser(user, domain);
    assert who[|user| + 1..] == domain;
  }

  lemma {:induction false} SplitUser(user: string, domain: string)
    requires '@' !in user
    ensures User(user + "@" + domain) == user
  {
    var who := user + "@" + domain;
    if user != "" {
      assert who[1..] == user[1..] + "@" + domain;
      SplitUser(user[1..], domain);
    }
  }

  /** The special principals, by their full names. */
  function ExactSpecial(user: string): Option<Sid> {
    if user == "OWNER" || user == "CREATOR OWNER" then Some(CreatorOwner)
    else if user == "GROUP" || user == "CREATOR GROUP" then Some(CreatorGroup)
    else if user == "EVERYONE" || user == "Everyone" then Some(World)
    else if user == "nobody" || user == "NULL SID" then Some(Null)
    else None
  }

  /** The name goes on after a special one. */
  predicate Extends(user: string) {
    || "OWNER" < user || "CREATOR OWNER" < user || "GROUP" < user || "CREATOR GROUP" < user
    || "EVERYONE" < user || "Everyone" < user || "nobody" < user || "NULL SID" < user
  }

  lemma PrefixCases(name: string, user: string)
    ensures name <= user <==> name < user || user == name
  {
    if name <= user && |name| == |user| {
      assert user == name;
    }
  }

  lemma ShortOrExact(user: string)
    requires !Extends(user)
    ensures Special(user) == ExactSpecial(user)
  {
    PrefixCases("OWNER", user);
    PrefixCases("CREATOR OWNER", user);
    PrefixCases("GROUP", user);
    PrefixCases("CREATOR GROUP", user);
    PrefixCases("EVERYONE", user);
    PrefixCases("Everyone", user);
    PrefixCases("nobody", user);
    PrefixCases("NULL SID", user);
  }

  lemma ExtensionIsOther(user: string)
    requires Extends(user)
    ensures Special(user).Some? && !Special(user).value.Account? && ExactSpecial(user).None?
  {
    if ExactSpecial(user).Some? {
      NameIsWhole(user);
    }
  }

  lemma NameIsWhole(user: string)
    requires ExactSpecial(user).Some?
    ensures !Extends(user)
  {
    assert user[0] in "OCGEnN" && user[1] in "WRVvoU";
    assert |user| == 13 ==> user[8] in "OG";
  }

  /** The comparison of prefixes is right for exactly the other names. */
  lemma SpecialIff(user: string)
    ensures Special(user) == ExactSpecial(user) <==> !Extends(user)
  {
    hide *;
    if Extends(user) {
      ExtensionIsOther(user);
    } else {
      ShortOrExact(user);
    }
  }

  /** OWNER@, GROUP@ and EVERYONE@, and their Windows names, get their well-known
      SIDs whatever the identity mapper says, and "nobody" of any domain the null
      SID, with or without a domain. */
  lemma WellKnown(ace: NfsAce, user: string, domain: string, before: Option<string>, names: NameMap)
    requires ExactSpecial(user).Some? && (ace.who == user || ace.who == user + "@" + domain)
    ensures CodedSid(ace, before, names) == ExactSpecial(user)
    ensures IsNobody(ace) <==> user == "nobody"
  {
    NoAt(user);
    if ace.who == user {
      WholeUser(user);
    } else {
      SplitName(user, domain, before);
    }
    NameIsWhole(user);
    SpecialIff(user);
  }

  lemma NoAt(user: string)
    requires ExactSpecial(user).Some?
    ensures '@' !in user
  {
  }

  /** The SID of an entry as its own "who" and flags determine it. */
  function IntendedSid(ace: NfsAce, names: NameMap): Option<Sid> {
    var special := ExactSpecial(User(ace.who));
    if special.Some? then special
    else
      match names(User(ace.who), IsGroup(ace, Domain(ace.who, None)))
      case None => None
      case Some(id) => Some(Account(id))
  }

  function Intended(aces: seq<NfsAce>, names: NameMap): Option<seq<Entry>> {
    if aces == [] then Some([])
    else
      var sid := IntendedSid(aces[0], names);
      var rest := Intended(aces[1..], names);
      if sid.None? || rest.None? then None else Some([Entry(aces[0], sid.value)] + rest.value)
  }

  /** A user is taken for a group because an earlier entry left its domain behind. */
  predicate Stale(ace: NfsAce, domain: Option<string>) {
    domain == Some("BUILTIN") && (ace.who == "Users" || ace.who == "Administrators") && IDENTIFIER_GROUP !in ace.flags
  }

  /** No name goes on after a special one, and no entry for a user called Users
      or Administrators comes without a domain after one of the domain BUILTIN. */
  predicate Plain(aces: seq<NfsAce>, domain: Option<string>) {
    aces != [] ==>
      var next := Domain(aces[0].who, domain);
      !Extends(User(aces[0].who)) && !Stale(aces[0], next) && Plain(aces[1..], next)
  }

  lemma GroupNames(who: string)
    ensures who == "Users" || who == "Administrators" ==> User(who) == who
    ensures |User(who)| == |who| ==> User(who) == who
  {
    UserPrefix(who);
    WholeUser("Users");
    WholeUser("Administrators");
  }

  lemma SameGroup(ace: NfsAce, domain: Option<string>)
    ensures IsGroup(ace, Domain(ace.who, domain)) == IsGroup(ace, Domain(ace.who, None)) <==> !Stale(ace, Domain(ace.who, domain))
  {
    hide User;
    UserPrefix(ace.who);
    GroupNames(ace.who);
  }

  lemma SameSid(ace: NfsAce, domain: Option<string>, names: NameMap)
    requires !Extends(User(ace.who)) && !Stale(ace, Domain(ace.who, domain))
    ensures CodedSid(ace, Domain(ace.who, domain), names) == IntendedSid(ace, names)
  {
    hide Extends, Special, Stale, IsGroup;
    SpecialIff(User(ace.who));
    SameGroup(ace, domain);
  }

  /** An identity mapper that keeps users and groups apart. */
  function ByKind(user: string, group: bool): Option<nat> {
    Some(if group then 1 else 0)
  }

  lemma AllMapped(ace: NfsAce, domain: Option<string>)
    ensures CodedSid(ace, domain, ByKind).Some? && IntendedSid(ace, ByKind).Some?
  {
  }

  lemma ExtensionDiffers(ace: NfsAce, domain: Option<string>)
    requires Extends(User(ace.who))
    ensures CodedSid(ace, domain, ByKind) != IntendedSid(ace, ByKind)
  {
    hide Extends, Special, IsGroup, ExactSpecial, User;
    ExtensionIsOther(User(ace.who));
  }

  lemma StaleDiffers(ace: NfsAce, domain: Option<string>)
    requires Stale(ace, Domain(ace.who, domain))
    ensures CodedSid(ace, Domain(ace.who, domain), ByKind) != IntendedSid(ace, ByKind)
  {
    WholeUser(ace.who);
  }

  lemma {:induction false} PlainIsIntended(aces: seq<NfsAce>, domain: Option<string>, names: NameMap)
    requires Plain(aces, domain)
    ensures Resolve(aces, domain, names) == Intended(aces, names)
  {
    hide Extends, Stale, CodedSid, IntendedSid, Domain;
    if aces != [] {
      var next := Domain(aces[0].who, domain);
      SameSid(aces[0], domain, names);
      PlainIsIntended(aces[1..], next, names);
    }
  }

  lemma {:induction false} OthersAreNot(aces: seq<NfsAce>, domain: Option<string>)
    ensures Resolve(aces, domain, ByKind).Some? && Intended(aces, ByKind).Some?
    ensures !Plain(aces, domain) ==> Resolve(aces, domain, ByKind) != Intended(aces, ByKind)
  {
    hide Extends, Stale, CodedSid, IntendedSid, Domain;
    if aces != [] {
      var next := Domain(aces[0].who, domain);
      AllMapped(aces[0], next);
      OthersAreNot(aces[1..], next);
      if Extends(User(aces[0].who)) {
        ExtensionDiffers(aces[0], next);
      } else if Stale(aces[0], next) {
        StaleDiffers(aces[0], domain);
      }
      SplitEntries(aces, domain);
    }
  }

  /** Two lists are the same only if their first entries and the rest are. */
  lemma SplitEntries(aces: seq<NfsAce>, domain: Option<string>)
    requires aces != [] && Resolve(aces, domain, ByKind).Some? && Intended(aces, ByKind).Some?
    ensures Resolve(aces, domain, ByKind) == Intended(aces, ByKind) ==>
              && CodedSid(aces[0], Domain(aces[0].who, domain), ByKind) == IntendedSid(aces[0], ByKind)
              && Resolve(aces[1..], Domain(aces[0].who, domain), ByKind) == Intended(aces[1..], ByKind)
  {
    hide CodedSid, IntendedSid, Domain;
    var next := Domain(aces[0].who, domain);
    var a, b := Resolve(aces, domain, ByKind).value, Intended(aces, ByKind).value;
    assert a[1..] == Resolve(aces[1..], next, ByKind).value && b[1..] == Intended(aces[1..], ByKind).value;
    assert Some(a[0].sid) == CodedSid(aces[0], next, ByKind);
    assert Some(b[0].sid) == IntendedSid(aces[0], ByKind);
  }

  /** Whatever the identity mapper says, the first pass gives every entry the SID
      that its own name stands for, if and only if the list is plain. */
  lemma IntendedIff(aces: seq<NfsAce>)
    ensures (forall names: NameMap :: Resolve(aces, None, names) == Intended(aces, names)) <==> Plain(aces, None)
  {
    if Plain(aces, None) {
      forall names: NameMap ensures Resolve(aces, None, names) == Intended(aces, names) {
        PlainIsIntended(aces, None, names);
      }
    } else {
      OthersAreNot(aces, None);
      assert Resolve(aces, None, ByKind) != Intended(aces, ByKind);
    }
  }

  /** A plain list is converted to a DACL that decides every individual right as
      the NFSv4 ACL does with the principals that its names stand for, for every
      requester who is not "nobody". */
  lemma ConvertedDecides(aces: seq<NfsAce>, names: NameMap, isDir: bool, namedAttrs: bool, member: Sid -> bool, right: nat)
    requires Plain(aces, None) && Intended(aces, names).Some? && Supported(Kept(Intended(aces, names).value))
    requires right in All(isDir) && !member(Null)
    ensures Resolve(aces, None, names).Some?
    ensures DecideWin(Dacl(Kept(Resolve(aces, None, names).value), isDir, namedAttrs), member, right) ==
            DecideNfs(Intended(aces, names).value, member, right)
  {
    hide All;
    PlainIsIntended(aces, None, names);
    ResolvedDecides(aces, names, isDir, namedAttrs, member, right);
  }

  // The two passes

  lemma SeqAssoc<T>(a: seq<T>, b: seq<T>, c: seq<T>)
    ensures a + b + c == a + (b + c)
  {
  }

  lemma {:induction false} KeptConcat(a: seq<Entry>, b: seq<Entry>)
    ensures Kept(a + b) == Kept(a) + Kept(b)
    decreases |a|
  {
    if a == [] {
      NothingKept();
      hide Kept;
      assert a + b == b && [] + Kept(b) == Kept(b);
    } else {
      hide IsNobody, Kept;
      KeptConcat(a[1..], b);
      KeptFirst(a + b);
      KeptFirst(a);
      assert (a + b)[0] == a[0] && (a + b)[1..] == a[1..] + b;
      SeqAssoc([a[0]], Kept(a[1..]), Kept(b));
    }
  }

  lemma KeptFirst(a: seq<Entry>)
    requires a != []
    ensures Kept(a) == if IsNobody(a[0].ace) then Kept(a[1..]) else [a[0]] + Kept(a[1..])
  {
    hide IsNobody;
    assert [] + Kept(a[1..]) == Kept(a[1..]);
  }

  lemma {:induction false} DaclAppend(entries: seq<Entry>, e: Entry, isDir: bool, namedAttrs: bool)
    ensures Dacl(entries + [e], isDir, namedAttrs) == Dacl(entries, isDir, namedAttrs) + [ToWin(e, isDir, namedAttrs)]
  {
    if entries == [] {
      assert entries + [e] == [e];
    } else {
      DaclAppend(entries[1..], e, isDir, namedAttrs);
      assert (entries + [e])[1..] == entries[1..] + [e];
    }
  }

  function Join(done: seq<Entry>, rest: Option<seq<Entry>>): Option<seq<Entry>> {
    match rest
    case None => None
    case Some(more) => Some(done + more)
  }

  /** One entry of the first pass. */
  lemma ResolveOne(done: seq<Entry>, aces: seq<NfsAce>, domain: Option<string>, names: NameMap)
    requires aces != []
    ensures var next := Domain(aces[0].who, domain);
      var sid := CodedSid(aces[0], next, names);
      Join(done, Resolve(aces, domain, names)) ==
        if sid.None? then None else Join(done + [Entry(aces[0], sid.value)], Resolve(aces[1..], next, names))
  {
    hide SidOf, IsNobody, Domain;
    var next := Domain(aces[0].who, domain);
    var sid := CodedSid(aces[0], next, names);
    var rest := Resolve(aces[1..], next, names);
    if sid.Some? && rest.Some? {
      assert done + ([Entry(aces[0], sid.value)] + rest.value) == done + [Entry(aces[0], sid.value)] + rest.value;
    }
  }

  datatype ConvertStatus = Converted | NameNotMapped | InternalError

  /** The SIDs in the array are those of the kept entries, in order. */
  ghost predicate SidsMatch(kept: seq<Entry>, sids: array<Sid>)
    reads sids
  {
    |kept| <= sids.Length && forall i :: 0 <= i < |kept| ==> sids[i] == kept[i].sid
  }

  /** The first pass: a SID for every entry that is not skipped */
  method ResolveAll(aces: seq<NfsAce>, names: NameMap, sids: array<Sid>, skip: array<bool>) returns (ok: bool, ghost entries: seq<Entry>)
    requires sids.Length == skip.Length == |aces|
    modifies sids, skip
    ensures !ok ==> Resolve(aces, None, names) == None
    ensures ok ==> Resolve(aces, None, names) == Some(entries) && |entries| == |aces| && SidsMatch(Kept(entries), sids)
    ensures ok ==> forall i :: 0 <= i < |aces| ==> entries[i].ace == aces[i] && skip[i] == IsNobody(aces[i])
  {
    hide Resolve, SidOf, IsNobody, Domain, Kept;
    var domain: Option<string> := None;
    var i, win := 0, 0;
    entries := [];
    NothingKept();
    JoinNothing(Resolve(aces, None, names));
    assert aces[0..] == aces;
    while i < |aces|
      invariant i <= |aces| && |entries| == i && win == |Kept(entries)| <= i && SidsMatch(Kept(entries), sids)
      invariant Resolve(aces, None, names) == Join(entries, Resolve(aces[i..], domain, names))
      invariant forall j :: 0 <= j < i ==> entries[j].ace == aces[j] && skip[j] == IsNobody(aces[j])
    {
      var ace := aces[i];
      ResolveOne(entries, aces[i..], domain, names);
      assert aces[i..][0] == ace && aces[i..][1..] == aces[i + 1..];
      domain := Domain(ace.who, domain);
      skip[i] := IsNobody(ace);
      var sid := Null;
      if !skip[i] {
        var found := SidOf(ace, domain, names);
        if found.None? {
          return false, entries;
        }
        sid := found.value;
        sids[win] := sid;
        win := win + 1;
      }
      KeptMore(entries, Entry(ace, sid));
      entries := entries + [Entry(ace, sid)];
      i := i + 1;
    }
    JoinEnd(entries, aces[i..], domain, names);
    ok := true;
  }

  lemma NothingKept()
    ensures Kept([]) == []
  {
  }

  lemma JoinNothing(r: Option<seq<Entry>>)
    ensures Join([], r) == r
  {
    if r.Some? {
      assert [] + r.value == r.value;
    }
  }

  lemma JoinEnd(done: seq<Entry>, aces: seq<NfsAce>, domain: Option<string>, names: NameMap)
    requires aces == []
    ensures Join(done, Resolve(aces, domain, names)) == Some(done)
  {
    assert done + [] == done;
  }

  lemma KeptMore(entries: seq<Entry>, e: Entry)
    ensures Kept(entries + [e]) == if IsNobody(e.ace) then Kept(entries) else Kept(entries) + [e]
  {
    KeptConcat(entries, [e]);
    assert Kept([e]) == if IsNobody(e.ace) then [] else [e];
  }

  /** convert_nfs4acl_2_dacl: both passes skip the same entries, so every entry
      of the DACL has the SID that was found for it. */
  method Convert(aces: seq<NfsAce>, names: NameMap, isDir: bool, namedAttrs: bool) returns (status: ConvertStatus, dacl: seq<WinAce>)
    ensures match Resolve(aces, None, names)
      case None => status == NameNotMapped
      case Some(entries) =>
        && (status == Converted <==> Supported(Kept(entries)))
        && (status == Converted ==> dacl == Dacl(Kept(entries), isDir, namedAttrs))
        && (status != Converted ==> status == InternalError)
  {
    hide Resolve, IsNobody, Kept, Dacl, WinFlags, WinMask;
    dacl := [];
    var sids := new Sid[|aces|](_ => Null);
    var skip := new bool[|aces|](_ => false);
    var ok;
    ghost var entries;
    ok, entries := ResolveAll(aces, names, sids, skip);
    if !ok {
      return NameNotMapped, dacl;
    }
    NothingKept();
    NoDacl(isDir, namedAttrs);
    var i, win := 0, 0;
    while i < |aces|
      invariant i <= |aces| && win == |Kept(entries[..i])| && Supported(Kept(entries[..i]))
      invariant dacl == Dacl(Kept(entries[..i]), isDir, namedAttrs)
      invariant SidsMatch(Kept(entries), sids) && forall j :: 0 <= j < |aces| ==> skip[j] == IsNobody(aces[j])
    {
      var ace := aces[i];
      KeptAt(entries, i);
      if !skip[i] {
        var flags := WinFlags(ace.flags);
        var mask := MapMask(ace.mask, isDir, namedAttrs);
        if ace.acetype.OtherType? {
          assert !Supported(Kept(entries)) by { assert Kept(entries)[win] == entries[i]; }
          return InternalError, dacl;
        }
        DaclAppend(Kept(entries[..i]), entries[i], isDir, namedAttrs);
        dacl := dacl + [WinAce(ace.acetype.Allowed?, flags, mask, sids[win])];
        win := win + 1;
      }
      i := i + 1;
    }
    assert entries[..i] == entries;
    status := Converted;
  }

  lemma NoDacl(isDir: bool, namedAttrs: bool)
    ensures Dacl([], isDir, namedAttrs) == []
  {
  }

  lemma PrefixOf<T>(a: seq<T>, b: seq<T>, all: seq<T>)
    requires all == a + b
    ensures a <= all
  {
  }

  /** Entry `i`, if kept, comes right after the kept ones before it. */
  lemma {:induction false} KeptAt(entries: seq<Entry>, i: nat)
    requires i < |entries|
    ensures Kept(entries[..i + 1]) == if IsNobody(entries[i].ace) then Kept(entries[..i]) else Kept(entries[..i]) + [entries[i]]
    ensures Kept(entries[..i + 1]) <= Kept(entries)
  {
    hide IsNobody, Kept;
    var a, b := entries[..i + 1], entries[i + 1..];
    assert a == entries[..i] + [entries[i]];
    KeptMore(entries[..i], entries[i]);
    assert entries == a + b;
    KeptConcat(a, b);
    PrefixOf(Kept(a), Kept(b), Kept(entries));
  }
}
