/**
Symbol names of an ELF section in address order, and their alignment with the definitions laid out in
that section (System V ABI, chapter 4, "Symbol Table"). `std::sort` leaves ties in any order, so every
fact here is about any sorted permutation of the symbol table.
*/
module ElfSymbols {
  import opened Common
  import opened Sorting

  datatype Sym = Sym(nameOffset: nat, value: nat, section: nat, kind: nat)

  const STT_FUNC: nat := 2

  /** The object as read: string table, section name offsets, symbol table. */
  datatype Elf = Elf(strtab: string, sectionNames: seq<nat>, symtab: seq<Sym>)

  function CString(s: string): string {
    if s == [] || s[0] == '\0' then [] else [s[0]] + CString(s[1..])
  }

  function GetSymName(elf: Elf, offset: nat): Result<string> {
    if offset >= |elf.strtab| then Err else Ok(CString(elf.strtab[offset..]))
  }

  /** `name` are the characters of the table from `offset` up to the first NUL, or up to its end. */
  ghost predicate IsStringAt(strtab: string, offset: nat, name: string) {
    && offset + |name| <= |strtab| && strtab[offset..offset + |name|] == name
    && (forall i :: 0 <= i < |name| ==> name[i] != '\0')
    && (offset + |name| < |strtab| ==> strtab[offset + |name|] == '\0')
  }

  lemma {:induction false} CStringIs(s: string)
    ensures IsStringAt(s, 0, CString(s))
  {
    if s != [] && s[0] != '\0' {
      CStringIs(s[1..]);
      var rest := CString(s[1..]);
      assert s[..|rest| + 1] == [s[0]] + s[1..][..|rest|];
    }
  }

  /** Two strings of one place are the same. */
  lemma {:induction false} StringAtIsUnique(strtab: string, offset: nat, a: string, b: string)
    requires IsStringAt(strtab, offset, a) && IsStringAt(strtab, offset, b)
    ensures a == b
  {
    assert forall i :: 0 <= i < |a| ==> a[i] == strtab[offset + i];
    assert forall i :: 0 <= i < |b| ==> b[i] == strtab[offset + i];
  }

  /** A name is read exactly when its offset is in the string table, and it is the string that stands there. */
  lemma {:induction false} GetSymNameIff(elf: Elf, offset: nat, name: string)
    ensures GetSymName(elf, offset) == Ok(name) <==> offset < |elf.strtab| && IsStringAt(elf.strtab, offset, name)
  {
    if offset < |elf.strtab| {
      var found := CString(elf.strtab[offset..]);
      CStringIs(elf.strtab[offset..]);
      assert elf.strtab[offset..][..|found|] == elf.strtab[offset..offset + |found|];
      assert IsStringAt(elf.strtab, offset, found);
      if IsStringAt(elf.strtab, offset, name) {
        StringAtIsUnique(elf.strtab, offset, found, name);
      }
    }
  }

  function NameOf(elf: Elf, sym: Sym): string {
    match GetSymName(elf, sym.nameOffset) case Ok(name) => name case Err => ""
  }

  function ValueOf(sym: Sym): int {
    sym.value
  }

  predicate Selected(sym: Sym, section: nat, kind: Option<nat>) {
    sym.section == section && (kind.None? || sym.kind == kind.value)
  }

  function Select(syms: seq<Sym>, section: nat, kind: Option<nat>): seq<Sym> {
    if syms == [] then []
    else
      var front, last := Select(syms[..|syms| - 1], section, kind), syms[|syms| - 1];
      if Selected(last, section, kind) then front + [last] else front
  }

  function NamesOf(elf: Elf, syms: seq<Sym>): seq<string> {
    seq(|syms|, i requires 0 <= i < |syms| => NameOf(elf, syms[i]))
  }

  /** `syms` are the selected symbols of a section in some order of ascending address. */
  ghost predicate InAddressOrder(elf: Elf, section: nat, kind: Option<nat>, syms: seq<Sym>) {
    exists sorted :: IsSortOf(sorted, elf.symtab, ValueOf) && syms == Select(sorted, section, kind)
  }

  ghost predicate WellNamed(elf: Elf) {
    && (forall i :: 0 <= i < |elf.sectionNames| ==> elf.sectionNames[i] < |elf.strtab|)
    && (forall i :: 0 <= i < |elf.symtab| ==> elf.symtab[i].nameOffset < |elf.strtab|)
  }

  /** Section `i` is the first of that name. */
  ghost predicate IsSection(elf: Elf, name: string, i: nat) {
    && i < |elf.sectionNames| && GetSymName(elf, elf.sectionNames[i]) == Ok(name)
    && (forall k :: 0 <= k < i ==> GetSymName(elf, elf.sectionNames[k]) != Ok(name))
  }

  ghost predicate AllNamed(elf: Elf, syms: seq<Sym>) {
    forall i :: 0 <= i < |syms| ==> GetSymName(elf, syms[i].nameOffset).Ok?
  }

  /** `readSymTab` with sorting. */
  method ReadSortedSymTab(elf: Elf) returns (sorted: seq<Sym>)
    ensures IsSortOf(sorted, elf.symtab, ValueOf)
  {
    sorted := Sort(elf.symtab, ValueOf);
    SortSorts(elf.symtab, ValueOf);
  }

  method FindSection(elf: Elf, name: string) returns (r: Result<nat>)
    ensures r.Ok? ==> IsSection(elf, name, r.value)
    ensures r.Err? && WellNamed(elf) ==> forall i :: !IsSection(elf, name, i)
  {
    var i := 0;
    while i < |elf.sectionNames|
      invariant 0 <= i <= |elf.sectionNames|
      invariant forall k :: 0 <= k < i ==> GetSymName(elf, elf.sectionNames[k]) != Ok(name)
    {
      var sectionName := GetSymName(elf, elf.sectionNames[i]);
      if sectionName.Err? {
        return Err;
      }
      if sectionName.value == name {
        return Ok(i);
      }
      i := i + 1;
    }
    r := Err;
  }

  /** The names of the selected symbols, in the order given. */
  method CollectNames(elf: Elf, sorted: seq<Sym>, section: nat, kind: Option<nat>) returns (r: Result<seq<string>>)
    ensures r.Ok? <==> AllNamed(elf, Select(sorted, section, kind))
    ensures r.Ok? ==> r.value == NamesOf(elf, Select(sorted, section, kind))
  {
    var names: seq<string> := [];
    var i := 0;
    while i < |sorted|
      invariant 0 <= i <= |sorted|
      invariant names == NamesOf(elf, Select(sorted[..i], section, kind))
      invariant AllNamed(elf, Select(sorted[..i], section, kind))
    {
      var sym := sorted[i];
      NamesStep(elf, sorted, section, kind, i);
      if sym.section == section && (kind.None? || sym.kind == kind.value) {
        var symName := GetSymName(elf, sym.nameOffset);
        if symName.Err? {
          SelectKeeps(sorted, section, kind, i);
          return Err;
        }
        names := names + [symName.value];
      }
      i := i + 1;
    }
    assert sorted[..i] == sorted;
    r := Ok(names);
  }

  lemma {:induction false} NamesStep(elf: Elf, syms: seq<Sym>, section: nat, kind: Option<nat>, i: nat)
    requires i < |syms|
    ensures var before, after := Select(syms[..i], section, kind), Select(syms[..i + 1], section, kind);
      if Selected(syms[i], section, kind)
      then after == before + [syms[i]] && NamesOf(elf, after) == NamesOf(elf, before) + [NameOf(elf, syms[i])]
      else after == before
  {
    assert syms[..i + 1][..i] == syms[..i];
  }

  /** `getSectionSymNames`: fails only for a missing section or a bad name offset. */
  method GetSectionSymNames(elf: Elf, name: string, kind: Option<nat>) returns (r: Result<seq<string>>, ghost section: nat, ghost syms: seq<Sym>)
    ensures r.Ok? ==> IsSection(elf, name, section) && InAddressOrder(elf, section, kind, syms) && r.value == NamesOf(elf, syms)
    ensures r.Ok? ==> AllNamed(elf, syms)
    ensures r.Ok? ==> |r.value| == |syms| && forall i :: 0 <= i < |syms| ==> IsStringAt(elf.strtab, syms[i].nameOffset, r.value[i])
    ensures r.Err? && WellNamed(elf) ==> forall i :: !IsSection(elf, name, i)
  {
    var sorted := ReadSortedSymTab(elf);
    var index := FindSection(elf, name);
    section, syms := 0, [];
    if index.Err? {
      return Err, section, syms;
    }
    section := index.value;
    syms := Select(sorted, section, kind);
    r := CollectNames(elf, sorted, index.value, kind);
    if WellNamed(elf) {
      SelectedAreNamed(elf, sorted, section, kind);
    }
    if r.Ok? {
      NamesStandThere(elf, syms);
    }
  }

  lemma {:induction false} NamesStandThere(elf: Elf, syms: seq<Sym>)
    requires AllNamed(elf, syms)
    ensures forall i :: 0 <= i < |syms| ==> IsStringAt(elf.strtab, syms[i].nameOffset, NamesOf(elf, syms)[i])
  {
    forall i | 0 <= i < |syms|
      ensures IsStringAt(elf.strtab, syms[i].nameOffset, NamesOf(elf, syms)[i])
    {
      assert GetSymName(elf, syms[i].nameOffset) == Ok(NamesOf(elf, syms)[i]);
      GetSymNameIff(elf, syms[i].nameOffset, NamesOf(elf, syms)[i]);
    }
  }

  lemma {:induction false} SelectKeeps(syms: seq<Sym>, section: nat, kind: Option<nat>, i: nat)
    requires i < |syms| && Selected(syms[i], section, kind)
    ensures syms[i] in Select(syms, section, kind)
  {
    if i < |syms| - 1 {
      SelectKeeps(syms[..|syms| - 1], section, kind, i);
    }
  }

  lemma {:induction false} SelectedAreNamed(elf: Elf, sorted: seq<Sym>, section: nat, kind: Option<nat>)
    requires WellNamed(elf) && IsSortOf(sorted, elf.symtab, ValueOf)
    ensures AllNamed(elf, Select(sorted, section, kind))
  {
    SelectSorted(sorted, section, kind);
    SameMembers(sorted, elf.symtab);
    var syms := Select(sorted, section, kind);
    forall i | 0 <= i < |syms|
      ensures GetSymName(elf, syms[i].nameOffset).Ok?
    {
      assert syms[i] in sorted;
      assert syms[i] in elf.symtab;
    }
  }

  // ----- selection and order -----

  lemma {:induction false} SelectMembers(syms: seq<Sym>, section: nat, kind: Option<nat>, sym: Sym)
    ensures multiset(Select(syms, section, kind))[sym] ==
      if Selected(sym, section, kind) then multiset(syms)[sym] else 0
  {
    if syms != [] {
      var n := |syms| - 1;
      assert syms == syms[..n] + [syms[n]];
      SelectMembers(syms[..n], section, kind, sym);
    }
  }

  lemma {:induction false} SelectSorted(syms: seq<Sym>, section: nat, kind: Option<nat>)
    requires Sorted(syms, ValueOf)
    ensures Sorted(Select(syms, section, kind), ValueOf)
    ensures forall s :: s in Select(syms, section, kind) ==> s in syms
  {
    if syms != [] {
      var n := |syms| - 1;
      SelectSorted(syms[..n], section, kind);
      var front := Select(syms[..n], section, kind);
      forall i | 0 <= i < |front|
        ensures ValueOf(front[i]) <= ValueOf(syms[n])
      {
        assert front[i] in syms[..n];
      }
    }
  }

  // ----- layout -----

  /** The definition whose bytes hold the symbol's address. */
  function Slot(sym: Sym, size: nat): (j: nat)
    requires size > 0
    ensures size * j <= sym.value < size * (j + 1)
  {
    sym.value / size
  }

  /** The section holds one symbol for each of `n` definitions of `size` bytes, at its address, and no other. */
  ghost predicate LaidOut(symtab: seq<Sym>, section: nat, size: nat, n: nat) {
    && size > 0
    && (forall i :: 0 <= i < |symtab| && symtab[i].section == section ==>
          symtab[i].value % size == 0 && Slot(symtab[i], size) < n)
    && (forall i, j :: 0 <= i < j < |symtab| && symtab[i].section == symtab[j].section == section ==>
          symtab[i].value != symtab[j].value)
    && (forall k :: 0 <= k < n ==> HasSlot(symtab, section, size, k))
  }

  ghost predicate HasSlot(symtab: seq<Sym>, section: nat, size: nat, k: nat)
    requires size > 0
  {
    exists i :: 0 <= i < |symtab| && symtab[i].section == section && Slot(symtab[i], size) == k
  }

  /** `syms` are the symbols of the section, each as often as the symbol table has it. */
  ghost predicate IsSectionOf(symtab: seq<Sym>, section: nat, syms: seq<Sym>) {
    forall s :: multiset(syms)[s] == if s.section == section then multiset(symtab)[s] else 0
  }

  lemma {:induction false} TwicePositions<T>(s: seq<T>, x: T)
    requires multiset(s)[x] >= 2
    ensures exists i, j :: 0 <= i < j < |s| && s[i] == x && s[j] == x
  {
    var n := |s| - 1;
    assert s == s[..n] + [s[n]];
    if s[n] == x {
      assert x in multiset(s[..n]);
      var i :| 0 <= i < n && s[..n][i] == x;
      assert s[i] == x;
    } else {
      TwicePositions(s[..n], x);
      var i, j :| 0 <= i < j < n && s[..n][i] == x && s[..n][j] == x;
      assert s[i] == x && s[j] == x;
    }
  }

  /** Symbols of the section have different addresses, whatever the order. */
  lemma {:induction false} DistinctAddresses(symtab: seq<Sym>, section: nat, size: nat, n: nat, syms: seq<Sym>, a: nat, b: nat)
    requires LaidOut(symtab, section, size, n) && IsSectionOf(symtab, section, syms)
    requires a < b < |syms|
    ensures syms[a].value != syms[b].value
  {
    var x, y := syms[a], syms[b];
    assert x in multiset(syms) && y in multiset(syms);
    assert x in symtab && y in symtab;
    if x == y {
      assert syms == syms[..b] + ([syms[b]] + syms[b + 1..]);
      assert x in syms[..b];
      assert multiset(syms)[x] >= 2;
      TwicePositions(symtab, x);
    }
  }

  lemma {:induction false} DivOrder(a: nat, b: nat, size: nat)
    requires size > 0 && a % size == 0 && b % size == 0 && a < b
    ensures a / size < b / size
  {
    assert a == size * (a / size) && b == size * (b / size);
    assert a / size <= b / size;
  }

  /** The symbols that the loader works with: in address order, and exactly those of the section. */
  lemma {:induction false} SectionMembers(elf: Elf, section: nat, syms: seq<Sym>)
    requires InAddressOrder(elf, section, None, syms)
    ensures Sorted(syms, ValueOf) && IsSectionOf(elf.symtab, section, syms)
  {
    var sorted :| IsSortOf(sorted, elf.symtab, ValueOf) && syms == Select(sorted, section, None);
    SelectSorted(sorted, section, None);
    forall s: Sym
      ensures multiset(syms)[s] == if s.section == section then multiset(elf.symtab)[s] else 0
    {
      SelectMembers(sorted, section, None, s);
    }
  }

  /** An increasing sequence with exactly the elements 0 to n - 1 counts up. */
  lemma {:induction false} CountsUp(q: seq<nat>, n: nat, i: nat)
    requires forall a, b :: 0 <= a < b < |q| ==> q[a] < q[b]
    requires forall k :: 0 <= k < n ==> k in q
    requires i < n
    ensures i < |q| && q[i] == i
  {
    assert i in q;
    var k :| 0 <= k < |q| && q[k] == i;
    if i > 0 {
      CountsUp(q, n, i - 1);
    }
    assert k >= i;
  }

  lemma {:induction false} GrowsByOne(q: seq<nat>, i: nat)
    requires i < |q| && forall a, b :: 0 <= a < b < |q| ==> q[a] < q[b]
    ensures q[i] >= i
  {
    if i > 0 {
      GrowsByOne(q, i - 1);
    }
  }

  lemma {:induction false} CountsExactly(q: seq<nat>, n: nat)
    requires forall a, b :: 0 <= a < b < |q| ==> q[a] < q[b]
    requires forall i :: 0 <= i < |q| ==> q[i] < n
    requires forall k :: 0 <= k < n ==> k in q
    ensures |q| == n && forall i :: 0 <= i < n ==> q[i] == i
  {
    forall i | 0 <= i < n
      ensures i < |q| && q[i] == i
    {
      CountsUp(q, n, i);
    }
    if q != [] {
      GrowsByOne(q, |q| - 1);
    }
    if n > 0 {
      CountsUp(q, n, n - 1);
    }
  }

  lemma {:induction false} SlotsOf(symtab: seq<Sym>, section: nat, size: nat, n: nat, syms: seq<Sym>) returns (q: seq<nat>)
    requires LaidOut(symtab, section, size, n) && IsSectionOf(symtab, section, syms) && Sorted(syms, ValueOf)
    ensures |q| == |syms|
    ensures forall i :: 0 <= i < |q| ==> q[i] == Slot(syms[i], size) < n && syms[i].value % size == 0
    ensures forall i :: 0 <= i < |q| ==> syms[i] in symtab && syms[i].section == section
    ensures forall a, b :: 0 <= a < b < |q| ==> q[a] < q[b]
    ensures forall k :: 0 <= k < n ==> k in q
  {
    q := seq(|syms|, i requires 0 <= i < |syms| => Slot(syms[i], size));
    forall i | 0 <= i < |syms|
      ensures syms[i] in symtab && syms[i].section == section && syms[i].value % size == 0 && q[i] < n
    {
      assert syms[i] in multiset(syms);
    }
    forall a, b | 0 <= a < b < |q|
      ensures q[a] < q[b]
    {
      DistinctAddresses(symtab, section, size, n, syms, a, b);
      assert ValueOf(syms[a]) <= ValueOf(syms[b]);
      DivOrder(syms[a].value, syms[b].value, size);
    }
    forall k | 0 <= k < n
      ensures k in q
    {
      assert HasSlot(symtab, section, size, k);
      var at :| 0 <= at < |symtab| && symtab[at].section == section && Slot(symtab[at], size) == k;
      assert symtab[at] in multiset(symtab);
      assert symtab[at] in multiset(syms);
      var i :| 0 <= i < |syms| && syms[i] == symtab[at];
      assert q[i] == k;
    }
  }

  /**
  Index alignment: when a section's symbols sit at consecutive multiples of the definition size, then
  for any symbol order the i-th name that the loader reads belongs to the symbol of definition i, and
  there are exactly as many names as definitions.
  */
  lemma {:induction false} IndexAlignment(elf: Elf, section: nat, size: nat, n: nat, syms: seq<Sym>)
    requires LaidOut(elf.symtab, section, size, n) && InAddressOrder(elf, section, None, syms)
    ensures |syms| == n
    ensures forall i :: 0 <= i < n ==>
      syms[i] in elf.symtab && syms[i].section == section && syms[i].value % size == 0 && Slot(syms[i], size) == i
  {
    SectionMembers(elf, section, syms);
    var q := SlotsOf(elf.symtab, section, size, n, syms);
    CountsExactly(q, n);
  }

  /** A symbol of the section is found at the index of its definition. */
  lemma {:induction false} SymbolAtSlot(elf: Elf, section: nat, size: nat, n: nat, syms: seq<Sym>, sym: Sym)
    requires LaidOut(elf.symtab, section, size, n) && InAddressOrder(elf, section, None, syms)
    requires sym in elf.symtab && sym.section == section
    ensures Slot(sym, size) < n == |syms| && syms[Slot(sym, size)] == sym
  {
    IndexAlignment(elf, section, size, n, syms);
    SectionMembers(elf, section, syms);
    assert sym in multiset(elf.symtab);
    assert sym in multiset(syms);
    var i :| 0 <= i < |syms| && syms[i] == sym;
  }
}
