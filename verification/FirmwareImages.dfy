/** Choosing the boot bank and marking banks available through the data model, on a settled bank cache. Available is
    read and written in the section whose id equals the bank's. BootFirmwareImage looks for a section in another way,
    whose body is not part of this repository: here it is a parameter `finds` that tells whether a section's id
    answers to a text. `Same` and `Contains` are its two readings. */
module FirmwareImages {
  import opened Decimal
  import opened BankId
  import opened FwBank
  import opened Texts

  // ----- reading a bank

  function Flag(b: bool): string {
    if b then "true" else "false"
  }

  /** get_blobmsg_option_value: a missing field, or an unknown name, reads as empty. */
  function OptionValue(e: BankEntry, name: string): string {
    if e.Unparsable? then ""
    else if name == "name" && e.name.Present? then e.name.value
    else if name == "id" && e.id.Present? then IdText(e.id.value)
    else if name == "active" && e.active.Present? then Flag(e.active.value)
    else if name == "boot" && e.boot.Present? then Flag(e.boot.value)
    else if name == "upgrade" && e.upgrade.Present? then Flag(e.upgrade.value)
    else if name == "fwver" && e.fwver.Present? then e.fwver.value
    else if name == "swver" && e.swver.Present? then e.swver.value
    else if name == "status" && e.status.Present? then e.status.value
    else ""
  }

  /** The id text of the first bank whose option reads "true". */
  function BankWith(d: Dump, option: string): string {
    if d == [] then ""
    else if OptionValue(d[0], option) == "true" then OptionValue(d[0], "id")
    else BankWith(d[1..], option)
  }

  /** Each name reads its own field, and any other name nothing. */
  lemma OptionValueIs(e: BankEntry)
    requires Complete(e)
    ensures OptionValue(e, "name") == e.name.value && OptionValue(e, "id") == IdText(e.id.value)
    ensures OptionValue(e, "active") == "true" <==> e.active.value
    ensures OptionValue(e, "boot") == "true" <==> e.boot.value
    ensures OptionValue(e, "upgrade") == "true" <==> e.upgrade.value
    ensures OptionValue(e, "fwver") == e.fwver.value && OptionValue(e, "swver") == e.swver.value
    ensures OptionValue(e, "status") == e.status.value
  {
  }

  /** The bank found is the first whose option reads "true", and none when no option does. */
  lemma {:induction false} BankWithIs(d: Dump, option: string, k: nat)
    requires k <= |d| && (k < |d| ==> OptionValue(d[k], option) == "true")
    requires forall i :: 0 <= i < k ==> OptionValue(d[i], option) != "true"
    ensures BankWith(d, option) == if k < |d| then OptionValue(d[k], "id") else ""
  {
    if k == 0 {
    } else {
      BankWithIs(d[1..], option, k - 1);
    }
  }

  // ----- availability

  /** A dmmap section of type fw_image. */
  datatype Image = Image(id: string, available: string)

  predicate Same(sectionId: string, id: string) {
    sectionId == id
  }

  /** What the first section found for `id` says, or nothing. */
  function Lookup(m: seq<Image>, id: string, finds: (string, string) -> bool): string {
    if m == [] then "" else if finds(m[0].id, id) then m[0].available else Lookup(m[1..], id, finds)
  }

  /** What the bank's own section says. */
  function Availability(m: seq<Image>, id: string): string {
    Lookup(m, id, Same)
  }

  function Marked(m: seq<Image>, id: string, available: string): seq<Image> {
    if m == [] then [Image(id, available)]
    else if m[0].id == id then [Image(id, available)] + m[1..]
    else [m[0]] + Marked(m[1..], id, available)
  }

  datatype Fault = NoFault | Fault9001
  datatype Switch = NoSwitch | SwitchTo(id: u32)

  // ----- the code

  class Images {
    var cache: Dump
    var dmmap: seq<Image>
    var switchBank: string
    var keepConfig: string
    var copies: nat          // how often the configuration was copied to the other bank

    method GetFwbankBankId(option: string) returns (id: string)
      ensures id == BankWith(cache, option)
    {
      var i := 0;
      while i < |cache|
        invariant i <= |cache| && BankWith(cache[i..], option) == BankWith(cache, option)
      {
        assert cache[i..][0] == cache[i] && cache[i..][1..] == cache[i + 1..];
        if OptionValue(cache[i], option) == "true" {
          return OptionValue(cache[i], "id");
        }
        i := i + 1;
      }
      assert cache[i..] == [];
      return "";
    }

    /** The alias that BootFirmwareImage refers to. */
    method GetDeviceBootFwimage() returns (linker: string)
      ensures linker == if BankWith(cache, "boot") == "" then "" else Linker(BankWith(cache, "boot"))
    {
      var id := GetFwbankBankId("boot");
      if id == "" {
        return "";
      }
      return Linker(id);
    }

    method FindImage(id: string, finds: (string, string) -> bool) returns (i: nat)
      ensures i <= |dmmap| && (i < |dmmap| ==> finds(dmmap[i].id, id))
      ensures forall j :: 0 <= j < i ==> !finds(dmmap[j].id, id)
    {
      i := 0;
      while i < |dmmap| && !finds(dmmap[i].id, id)
        invariant i <= |dmmap| && forall j :: 0 <= j < i ==> !finds(dmmap[j].id, id)
      {
        i := i + 1;
      }
    }

    /** VALUESET of Available on the bank `e`. */
    method SetAvailable(e: BankEntry, b: bool) returns (f: Fault)
      modifies this`dmmap
      ensures f == Fault9001 <==> !b && (OptionValue(e, "boot") == "true" || OptionValue(e, "active") == "true")
      ensures (f, dmmap) == SettingAvailable(old(dmmap), e, b)
    {
      if !b && (OptionValue(e, "boot") == "true" || OptionValue(e, "active") == "true") {
        return Fault9001;
      }
      var id := OptionValue(e, "id");
      var i := FindImage(id, Same);
      FoundIsMarked(dmmap, id, Flag(b), i);
      if i < |dmmap| {
        dmmap := dmmap[i := dmmap[i].(available := Flag(b))];
      } else {
        dmmap := dmmap + [Image(id, Flag(b))];
      }
      return NoFault;
    }

    /** VALUESET of BootFirmwareImage, given the alias behind the reference; `starts` tells whether the set_bootbank
        task can be started. */
    method SetDeviceBootFwimage(linker: string, word: int, starts: bool, finds: (string, string) -> bool)
      returns (f: Fault, s: Switch)
      requires word > 0
      modifies this`switchBank, this`copies
      ensures (f, s) == Switching(dmmap, linker, word, starts, finds)
      ensures switchBank == if s == NoSwitch then old(switchBank) else "1"
      ensures copies == old(copies) + if s != NoSwitch && keepConfig == "1" then 1 else 0
    {
      if linker == "" {
        return NoFault, NoSwitch;
      }
      var cut := AfterDash(linker);
      if cut.NoDash? {
        return Fault9001, NoSwitch;
      }
      var i := FindImage(cut.rest, finds);
      FoundIsRead(dmmap, cut.rest, i, finds);
      if i < |dmmap| && dmmap[i].available == "false" {
        return Fault9001, NoSwitch;
      }
      if !starts {
        return Fault9001, NoSwitch;
      }
      switchBank := "1";
      if keepConfig == "1" {
        copies := copies + 1;
      }
      return NoFault, SwitchTo(ParseId(cut.rest, word));
    }
  }

  function SettingAvailable(m: seq<Image>, e: BankEntry, b: bool): (Fault, seq<Image>) {
    if !b && InUse(e) then (Fault9001, m) else (NoFault, Marked(m, OptionValue(e, "id"), Flag(b)))
  }

  predicate InUse(e: BankEntry) {
    OptionValue(e, "boot") == "true" || OptionValue(e, "active") == "true"
  }

  function Switching(m: seq<Image>, linker: string, word: int, starts: bool, finds: (string, string) -> bool)
    : (Fault, Switch)
    requires word > 0
  {
    if linker == "" then (NoFault, NoSwitch)
    else match AfterDash(linker)
      case NoDash => (Fault9001, NoSwitch)
      case After(id) =>
        if Lookup(m, id, finds) == "false" || !starts then (Fault9001, NoSwitch)
        else (NoFault, SwitchTo(ParseId(id, word)))
  }

  lemma {:induction false} FoundIsMarked(m: seq<Image>, id: string, available: string, i: nat)
    requires i <= |m| && (i < |m| ==> m[i].id == id) && forall j :: 0 <= j < i ==> m[j].id != id
    ensures Marked(m, id, available)
            == if i < |m| then m[i := m[i].(available := available)] else m + [Image(id, available)]
  {
    if i == 0 {
    } else {
      FoundIsMarked(m[1..], id, available, i - 1);
    }
  }

  lemma {:induction false} FoundIsRead(m: seq<Image>, id: string, i: nat, finds: (string, string) -> bool)
    requires i <= |m| && (i < |m| ==> finds(m[i].id, id)) && forall j :: 0 <= j < i ==> !finds(m[j].id, id)
    ensures Lookup(m, id, finds) == if i < |m| then m[i].available else ""
  {
    if i == 0 {
    } else {
      FoundIsRead(m[1..], id, i - 1, finds);
    }
  }

  lemma {:induction false} MarkedIsRead(m: seq<Image>, id: string, available: string, other: string)
    ensures Availability(Marked(m, id, available), other) == if other == id then available else Availability(m, other)
  {
    var n := Marked(m, id, available);
    if m == [] {
      assert n[1..] == [];
    } else if m[0].id == id {
      assert n[1..] == m[1..];
    } else {
      assert n[1..] == Marked(m[1..], id, available);
      MarkedIsRead(m[1..], id, available, other);
    }
  }

  // ----- one write

  predicate HasId(e: BankEntry) {
    e.Entry? && e.id.Present?
  }

  predicate Boots(e: BankEntry) {
    OptionValue(e, "boot") == "true"
  }

  function Switched(e: BankEntry, id: u32): BankEntry {
    if e.Unparsable? then e else e.(boot := Present(e.id == Present(id)))
  }

  /** The table after a successful set_bootbank: the named bank boots, and no other. */
  function Booting(d: Dump, id: u32): (e: Dump)
    ensures |e| == |d| && forall i :: 0 <= i < |d| ==> e[i] == Switched(d[i], id)
  {
    seq(|d|, i requires 0 <= i < |d| => Switched(d[i], id))
  }

  datatype State = State(table: Dump, dmmap: seq<Image>)

  /** Writes to the data model. `starts` tells whether the set_bootbank task starts, `done` whether its script succeeds;
      then the table is switched before the next write. */
  datatype Write = Available(k: nat, b: bool) | BootImage(k: nat, starts: bool, done: bool)

  function Apply(s: State, x: Write, word: int, finds: (string, string) -> bool): State
    requires word > 0
  {
    if x.k >= |s.table| then s
    else
      var id := OptionValue(s.table[x.k], "id");
      match x
      case Available(k, b) => s.(dmmap := SettingAvailable(s.dmmap, s.table[k], b).1)
      case BootImage(k, starts, done) =>
        match Switching(s.dmmap, Linker(id), word, starts, finds).1
        case NoSwitch => s
        case SwitchTo(bank) => if done then s.(table := Booting(s.table, bank)) else s
  }

  /** No bank that boots is marked unavailable. */
  predicate BootAvailable(s: State) {
    forall i :: 0 <= i < |s.table| && Boots(s.table[i]) ==>
      Availability(s.dmmap, OptionValue(s.table[i], "id")) != "false"
  }

  lemma IdTextInjective(a: u32, b: u32)
    requires IdText(a) == IdText(b)
    ensures a == b
  {
    PrintInjective(ToInt32(a), ToInt32(b));
  }

  /** The bank that a reference to `e` switches to: without an id it is bank 0. */
  function Target(e: BankEntry): u32 {
    if HasId(e) then e.id.value else 0
  }

  lemma EmptyIdIsZero(word: int)
    requires word > 0
    ensures AfterDash(Linker("")) == After("") && ParseId("", word) == 0
  {
    DashSplits("cpe", "");
    assert "cpe" + ("-" + "") == "cpe-" == Linker("");
    assert ReadNumeral("") == Numeral(false, 0);
  }

  /** A write of BootFirmwareImage switches to exactly the bank the reference names, whatever the other banks are,
      unless the section found for it says that it is unavailable. */
  lemma SwitchesToReferenced(m: seq<Image>, e: BankEntry, word: int, starts: bool, finds: (string, string) -> bool)
    requires word == TWO_32 || word == TWO_64
    ensures var id := OptionValue(e, "id");
            Switching(m, Linker(id), word, starts, finds)
            == if Lookup(m, id, finds) == "false" || !starts then (Fault9001, NoSwitch)
               else (NoFault, SwitchTo(Target(e)))
  {
    if HasId(e) {
      LinkerFits(e.id.value);
      IdRoundTrip(e.id.value, word);
      assert OptionValue(e, "id") == IdText(e.id.value);
    } else {
      EmptyIdIsZero(word);
      assert OptionValue(e, "id") == "";
    }
  }

  /** An empty reference changes nothing, and one without a '-' is refused. */
  lemma OddReferences(m: seq<Image>, linker: string, word: int, starts: bool, finds: (string, string) -> bool)
    requires word > 0 && '-' !in linker
    ensures Switching(m, linker, word, starts, finds) == (if linker == "" then NoFault else Fault9001, NoSwitch)
  {
    NoDashIn(linker);
  }

  lemma {:induction false} NoDashIn(s: string)
    requires '-' !in s
    ensures AfterDash(s) == NoDash
  {
    if s == [] {
    } else {
      assert s[0] in s;
      NoDashIn(s[1..]);
    }
  }

  /** After a switch the boot bank is available exactly when the bank's own section lets it, or no bank has the id. */
  lemma BootingIff(s: State, id: u32)
    ensures BootAvailable(s.(table := Booting(s.table, id)))
            <==> Availability(s.dmmap, IdText(id)) != "false" || NoBank(s.table, id)
  {
    var e := Booting(s.table, id);
    forall i | 0 <= i < |e|
      ensures Boots(e[i]) <==> HasId(s.table[i]) && s.table[i].id.value == id
      ensures Boots(e[i]) ==> OptionValue(e[i], "id") == IdText(id)
    {
      assert e[i] == Switched(s.table[i], id);
    }
    if i :| 0 <= i < |e| && HasId(s.table[i]) && s.table[i].id.value == id {
      assert Boots(e[i]);
    }
  }

  predicate NoBank(d: Dump, id: u32) {
    forall i :: 0 <= i < |d| ==> !(HasId(d[i]) && d[i].id.value == id)
  }

  /** Marking a bank unavailable leaves the boot bank available exactly when no bank that boots has its id text. */
  lemma MarkingIff(s: State, id: string, b: bool)
    requires BootAvailable(s)
    ensures BootAvailable(s.(dmmap := Marked(s.dmmap, id, Flag(b)))) <==> b || NoBootBank(s.table, id)
  {
    var m := Marked(s.dmmap, id, Flag(b));
    forall i | 0 <= i < |s.table|
      ensures var own := OptionValue(s.table[i], "id");
              Availability(m, own) == if own == id then Flag(b) else Availability(s.dmmap, own)
    {
      MarkedIsRead(s.dmmap, id, Flag(b), OptionValue(s.table[i], "id"));
    }
  }

  predicate NoBootBank(d: Dump, id: string) {
    forall i :: 0 <= i < |d| && Boots(d[i]) ==> OptionValue(d[i], "id") != id
  }

  /** What can be checked before a write. Available: nothing is marked unavailable, or the bank is in use and refused,
      or no other bank that boots has its id text. BootFirmwareImage: the write is refused or fails, or the bank
      switched to is not marked unavailable in its own section, or does not exist. */
  predicate WriteSafe(s: State, x: Write, finds: (string, string) -> bool) {
    x.k < |s.table| ==>
      var e := s.table[x.k];
      var id := OptionValue(e, "id");
      match x
      case Available(_, b) => b || InUse(e) || NoBootBank(s.table, id)
      case BootImage(_, starts, done) =>
        || !starts || !done || Lookup(s.dmmap, id, finds) == "false"
        || Availability(s.dmmap, IdText(Target(e))) != "false" || NoBank(s.table, Target(e))
  }

  /** A write keeps the boot bank available if and only if it is safe, on every table and however sections are found. */
  lemma WriteIsSafeIff(s: State, x: Write, word: int, finds: (string, string) -> bool)
    requires BootAvailable(s) && (word == TWO_32 || word == TWO_64)
    ensures BootAvailable(Apply(s, x, word, finds)) <==> WriteSafe(s, x, finds)
  {
    if x.k < |s.table| {
      var e := s.table[x.k];
      match x
      case Available(_, b) => MarkingIff(s, OptionValue(e, "id"), b);
      case BootImage(_, starts, done) =>
        SwitchesToReferenced(s.dmmap, e, word, starts, finds);
        BootingIff(s, Target(e));
    }
  }

  /** A switch to a bank with an id is safe exactly when the section found says "false" if the bank's own one does. */
  lemma SwitchIsSafeIff(s: State, k: nat, finds: (string, string) -> bool)
    requires k < |s.table| && HasId(s.table[k])
    ensures var id := OptionValue(s.table[k], "id");
            WriteSafe(s, BootImage(k, true, true), finds)
            <==> (Availability(s.dmmap, id) == "false" ==> Lookup(s.dmmap, id, finds) == "false")
  {
    assert !NoBank(s.table, s.table[k].id.value);
  }

  // ----- whole runs

  function Run(s: State, xs: seq<Write>, word: int, finds: (string, string) -> bool): State
    requires word > 0
    decreases |xs|
  {
    if xs == [] then s else Run(Apply(s, xs[0], word, finds), xs[1..], word, finds)
  }

  /** Every write is safe where it is made. */
  predicate WritesSafe(s: State, xs: seq<Write>, word: int, finds: (string, string) -> bool)
    requires word > 0
    decreases |xs|
  {
    xs == [] || (WriteSafe(s, xs[0], finds) && WritesSafe(Apply(s, xs[0], word, finds), xs[1..], word, finds))
  }

  predicate AlwaysBootAvailable(s: State, xs: seq<Write>, word: int, finds: (string, string) -> bool)
    requires word > 0
    decreases |xs|
  {
    BootAvailable(s) && (xs == [] || AlwaysBootAvailable(Apply(s, xs[0], word, finds), xs[1..], word, finds))
  }

  /** In a run of BootFirmwareImage and Available writes the boot bank is available after every write if and only if
      every write is safe where it is made. */
  lemma {:induction false} RunIsSafeIff(s: State, xs: seq<Write>, word: int, finds: (string, string) -> bool)
    requires BootAvailable(s) && (word == TWO_32 || word == TWO_64)
    ensures AlwaysBootAvailable(s, xs, word, finds) <==> WritesSafe(s, xs, word, finds)
    decreases |xs|
  {
    if xs == [] {
    } else {
      WriteIsSafeIff(s, xs[0], word, finds);
      var t := Apply(s, xs[0], word, finds);
      if BootAvailable(t) {
        RunIsSafeIff(t, xs[1..], word, finds);
      }
    }
  }

  // ----- when every write is safe

  /** Every bank has an id, and ids tell banks apart. Other fields may be missing. */
  predicate SettledCache(d: Dump) {
    && (forall i :: 0 <= i < |d| ==> HasId(d[i]))
    && (forall i, j :: 0 <= i < j < |d| ==> d[i].id.value != d[j].id.value)
  }

  function BankIds(d: Dump): set<string> {
    set i | 0 <= i < |d| :: OptionValue(d[i], "id")
  }

  function SectionIds(m: seq<Image>): set<string> {
    set i | 0 <= i < |m| :: m[i].id
  }

  /** Among the ids of sections and banks, a bank's id finds only itself. */
  predicate Apart(s: State, finds: (string, string) -> bool) {
    forall t, id :: t in SectionIds(s.dmmap) + BankIds(s.table) && id in BankIds(s.table) ==>
      (finds(t, id) <==> t == id)
  }

  lemma {:induction false} ApartIsOwn(m: seq<Image>, id: string, finds: (string, string) -> bool)
    requires forall i :: 0 <= i < |m| ==> (finds(m[i].id, id) <==> m[i].id == id)
    ensures Lookup(m, id, finds) == Availability(m, id)
  {
    if m == [] {
    } else {
      ApartIsOwn(m[1..], id, finds);
    }
  }

  lemma {:induction false} MarkedIds(m: seq<Image>, id: string, available: string)
    ensures SectionIds(Marked(m, id, available)) == SectionIds(m) + {id}
  {
    var n := Marked(m, id, available);
    IdsCons(n);
    if m == [] {
      assert n[0].id == id && n[1..] == [];
    } else if m[0].id == id {
      assert n[0].id == id && n[1..] == m[1..];
      IdsCons(m);
    } else {
      assert n[0] == m[0] && n[1..] == Marked(m[1..], id, available);
      IdsCons(m);
      MarkedIds(m[1..], id, available);
    }
  }

  lemma IdsCons(m: seq<Image>)
    requires m != []
    ensures SectionIds(m) == {m[0].id} + SectionIds(m[1..])
  {
    forall t | t in SectionIds(m)
      ensures t == m[0].id || t in SectionIds(m[1..])
    {
      var i :| 0 <= i < |m| && t == m[i].id;
      assert i > 0 ==> m[1..][i - 1] == m[i];
    }
    forall t | t in SectionIds(m[1..])
      ensures t in SectionIds(m)
    {
      var i :| 0 <= i < |m[1..]| && t == m[1..][i].id;
      assert t == m[i + 1].id;
    }
  }

  lemma BootingIds(d: Dump, id: u32)
    ensures BankIds(Booting(d, id)) == BankIds(d) && (SettledCache(d) ==> SettledCache(Booting(d, id)))
  {
    var e := Booting(d, id);
    assert forall i :: 0 <= i < |d| ==> OptionValue(e[i], "id") == OptionValue(Switched(d[i], id), "id");
    assert forall i :: 0 <= i < |d| ==> OptionValue(Switched(d[i], id), "id") == OptionValue(d[i], "id");
  }

  lemma WriteKeepsApart(s: State, x: Write, word: int, finds: (string, string) -> bool)
    requires SettledCache(s.table) && Apart(s, finds) && word > 0
    ensures var t := Apply(s, x, word, finds); SettledCache(t.table) && Apart(t, finds)
  {
    if x.k < |s.table| {
      var id := OptionValue(s.table[x.k], "id");
      assert id in BankIds(s.table);
      match x
      case Available(_, b) => MarkedIds(s.dmmap, id, Flag(b));
      case BootImage(_, starts, done) =>
        var to := Switching(s.dmmap, Linker(id), word, starts, finds).1;
        if to.SwitchTo? {
          BootingIds(s.table, to.id);
        }
    }
  }

  lemma ApartIsSafe(s: State, x: Write, finds: (string, string) -> bool)
    requires SettledCache(s.table) && Apart(s, finds)
    ensures WriteSafe(s, x, finds)
  {
    if x.k < |s.table| {
      var id := OptionValue(s.table[x.k], "id");
      assert id in BankIds(s.table);
      if x.BootImage? {
        assert forall i :: 0 <= i < |s.dmmap| ==> s.dmmap[i].id in SectionIds(s.dmmap);
        ApartIsOwn(s.dmmap, id, finds);
      } else if !Boots(s.table[x.k]) {
        OnlyItsOwnId(s.table, x.k);
      }
    }
  }

  lemma OnlyItsOwnId(d: Dump, k: nat)
    requires SettledCache(d) && k < |d| && !Boots(d[k])
    ensures NoBootBank(d, OptionValue(d[k], "id"))
  {
    forall i | 0 <= i < |d| && Boots(d[i])
      ensures OptionValue(d[i], "id") != OptionValue(d[k], "id")
    {
      if OptionValue(d[i], "id") == OptionValue(d[k], "id") {
        IdTextInjective(d[i].id.value, d[k].id.value);
      }
    }
  }

  /** With ids that tell banks apart, of which none finds another one's section, the boot bank is never marked
      unavailable in any run. */
  lemma {:induction false} BootBankStaysAvailable(s: State, xs: seq<Write>, word: int, finds: (string, string) -> bool)
    requires SettledCache(s.table) && Apart(s, finds) && BootAvailable(s) && (word == TWO_32 || word == TWO_64)
    ensures BootAvailable(Run(s, xs, word, finds))
    decreases |xs|
  {
    if xs == [] {
    } else {
      ApartIsSafe(s, xs[0], finds);
      WriteIsSafeIff(s, xs[0], word, finds);
      WriteKeepsApart(s, xs[0], word, finds);
      BootBankStaysAvailable(Apply(s, xs[0], word, finds), xs[1..], word, finds);
    }
  }

  /** A lookup by equality never finds another section; a lookup by containment does exactly when one id text is a
      proper part of another. */
  lemma ApartReadings(s: State)
    ensures Apart(s, Same)
    ensures Apart(s, Contains) <==> forall t, id ::
              t in SectionIds(s.dmmap) + BankIds(s.table) && id in BankIds(s.table) && Contains(t, id) ==> t == id
  {
    forall id: string
      ensures Contains(id, id)
    {
      ContainsAt(id, 0, id);
    }
  }

  // ----- writes that are not safe

  /** A bank entry of which only the id and the boot flag matter. */
  function Plain(id: Maybe<u32>, boot: bool): BankEntry {
    Entry(Absent, id, Absent, Present(boot), Absent, Absent, Absent, Absent)
  }

  /** Bank 1 is marked unavailable, and the section of bank 10, which boots, comes before its own. */
  function TenAndOne(): State {
    State([Plain(Present(1), false), Plain(Present(10), true)], [Image("10", "true"), Image("1", "false")])
  }

  lemma TenAndOneIsSettled()
    ensures BootAvailable(TenAndOne()) && SettledCache(TenAndOne().table)
    ensures OptionValue(TenAndOne().table[0], "id") == "1"
  {
    assert Digits(10) == "10" && Digits(1) == "1";
    TwoSections(TenAndOne().dmmap);
  }

  /** By containment, bank 1 answers to the section of bank 10: it is switched to although it is marked unavailable. By
      equality the write is refused. */
  lemma ContainedIdIsNotChecked(word: int)
    requires word == TWO_32 || word == TWO_64
    ensures var s, x := TenAndOne(), BootImage(0, true, true);
            && BootAvailable(s) && SettledCache(s.table)
            && !BootAvailable(Apply(s, x, word, Contains)) && Apply(s, x, word, Same) == s
  {
    var s := TenAndOne();
    TenAndOneIsSettled();
    TwoSections(s.dmmap);
    SwitchIsSafeIff(s, 0, Contains);
    WriteIsSafeIff(s, BootImage(0, true, true), word, Contains);
    SwitchesToReferenced(s.dmmap, s.table[0], word, true, Same);
  }

  lemma TwoSections(m: seq<Image>)
    requires m == [Image("10", "true"), Image("1", "false")]
    ensures Lookup(m, "1", Contains) == "true" && Availability(m, "10") == "true" && Availability(m, "1") == "false"
  {
    ContainsAt("10", 0, "1");
    FoundIsRead(m, "1", 0, Contains);
    FoundIsRead(m, "1", 1, Same);
    FoundIsRead(m, "10", 0, Same);
  }

  /** The ids are needed: a bank without one is switched to as bank 0, although that is marked unavailable, in both
      readings. */
  lemma MissingIdSwitchesToZero(word: int, finds: (string, string) -> bool)
    requires (word == TWO_32 || word == TWO_64) && (finds == Same || finds == Contains)
    ensures var s := State([Plain(Absent, false), Plain(Present(0), false)], [Image("5", "true"), Image("0", "false")]);
            BootAvailable(s) && !BootAvailable(Apply(s, BootImage(0, true, true), word, finds))
  {
    var a, b := Plain(Absent, false), Plain(Present(0), false);
    var s := State([a, b], [Image("5", "true"), Image("0", "false")]);
    assert IdText(0) == "0" && OptionValue(a, "id") == "";
    ContainsAt("5", 0, "");
    FoundIsRead(s.dmmap, "0", 1, Same);
    if finds == Same {
      FoundIsRead(s.dmmap, "", 2, Same);
    } else {
      FoundIsRead(s.dmmap, "", 0, Contains);
    }
    assert HasId(s.table[1]) && s.table[1].id.value == 0;
    assert !NoBank(s.table, 0);
    WriteIsSafeIff(s, BootImage(0, true, true), word, finds);
  }

  // ----- reading back, and Activate()

  lemma {:induction false} FirstBoot(d: Dump, k: nat, id: u32)
    requires k < |d| && HasId(d[k]) && d[k].id.value == id
    ensures BankWith(Booting(d, id), "boot") == IdText(id)
  {
    var e := Booting(d, id);
    assert e[0] == Switched(d[0], id);
    if k == 0 {
    } else {
      assert d[1..][k - 1] == d[k] && e[1..] == Booting(d[1..], id);
      FirstBoot(d[1..], k - 1, id);
    }
  }

  /** Once the switch to a bank with an id is done, BootFirmwareImage reads back as the alias that was written. */
  lemma BootImageReadsBack(s: State, k: nat, word: int, finds: (string, string) -> bool)
    requires k < |s.table| && HasId(s.table[k]) && (word == TWO_32 || word == TWO_64)
    requires Lookup(s.dmmap, OptionValue(s.table[k], "id"), finds) != "false"
    ensures var alias := Linker(OptionValue(s.table[k], "id"));
            Linker(BankWith(Apply(s, BootImage(k, true, true), word, finds).table, "boot")) == alias
  {
    SwitchesToReferenced(s.dmmap, s.table[k], word, true, finds);
    FirstBoot(s.table, k, s.table[k].id.value);
  }

  /** Activate() asks for the switch without looking at availability, so after it the boot bank is available exactly
      when the activated one was. */
  lemma ActivateIsNotChecked(s: State, k: nat)
    requires k < |s.table| && HasId(s.table[k])
    ensures BootAvailable(s.(table := Booting(s.table, s.table[k].id.value)))
            <==> Availability(s.dmmap, OptionValue(s.table[k], "id")) != "false"
  {
    BootingIff(s, s.table[k].id.value);
    assert !NoBank(s.table, s.table[k].id.value);
  }
}
