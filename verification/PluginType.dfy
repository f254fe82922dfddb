/** Plugin type strings: fields between delimiters, and which types belong to a domain. */
module PluginType {
  import opened LinkedList

  const TYPE_DEPTH := 3

  /** Where `strchr` finds the delimiter at or behind `from`, or the length of the string. */
  function NextDelim(str: string, delim: char, from: nat): (e: nat)
    requires from <= |str|
    ensures from <= e <= |str| && delim !in str[from..e]
    ensures e < |str| ==> str[e] == delim
    decreases |str| - from
  {
    if from == |str| || str[from] == delim then from
    else
      assert str[from..] == [str[from]] + str[from + 1..];
      NextDelim(str, delim, from + 1)
  }

  /** The fields from a position on. */
  function SplitFrom(str: string, delim: char, from: nat): (f: seq<string>)
    requires from <= |str|
    ensures |f| >= 1
    decreases |str| - from
  {
    var e := NextDelim(str, delim, from);
    if e == |str| then [str[from..]] else [str[from..e]] + SplitFrom(str, delim, e + 1)
  }

  /** The fields of a string. The search for the end of the first field begins behind the first character,
      so that character always belongs to the first field. An empty string has one field, as long as the
      byte behind its end is zero too. */
  function Fields(str: string, delim: char): (f: seq<string>)
    ensures |f| >= 1
  {
    if str == [] then [[]]
    else
      var e := NextDelim(str, delim, 1);
      if e == |str| then [str] else [str[..e]] + SplitFrom(str, delim, e + 1)
  }

  function Join(fields: seq<string>, delim: char): string
    requires fields != []
  {
    if |fields| == 1 then fields[0] else fields[0] + [delim] + Join(fields[1..], delim)
  }

  function Count(str: string, delim: char): nat {
    if str == [] then 0 else (if str[0] == delim then 1 else 0) + Count(str[1..], delim)
  }

  lemma JoinOne(field: string, delim: char)
    ensures Join([field], delim) == field
  {}

  lemma JoinCons(first: string, rest: seq<string>, delim: char)
    requires rest != []
    ensures Join([first] + rest, delim) == first + [delim] + Join(rest, delim)
  {
    assert ([first] + rest)[1..] == rest;
  }

  lemma CutOut(str: string, from: nat, e: nat)
    requires from <= e < |str|
    ensures str[from..] == str[from..e] + [str[e]] + str[e + 1..]
  {}

  /** What a split is made of: the part up to the next delimiter, and the split of what is behind it. */
  lemma SplitUnfolds(str: string, delim: char, from: nat)
    requires from <= |str|
    ensures
      var e := NextDelim(str, delim, from);
      SplitFrom(str, delim, from) == if e == |str| then [str[from..]] else [str[from..e]] + SplitFrom(str, delim, e + 1)
  {}

  lemma FieldsUnfold(str: string, delim: char)
    requires str != []
    ensures
      var e := NextDelim(str, delim, 1);
      Fields(str, delim) == if e == |str| then [str] else [str[0..e]] + SplitFrom(str, delim, e + 1)
  {
    assert str[0..NextDelim(str, delim, 1)] == str[..NextDelim(str, delim, 1)];
  }

  lemma {:induction false} JoinSplit(str: string, delim: char, from: nat)
    requires from <= |str|
    ensures Join(SplitFrom(str, delim, from), delim) == str[from..]
    decreases |str| - from
  {
    hide SplitFrom, Join, NextDelim;
    SplitUnfolds(str, delim, from);
    var e := NextDelim(str, delim, from);
    if e < |str| {
      JoinSplit(str, delim, e + 1);
      CutOut(str, from, e);
      JoinCons(str[from..e], SplitFrom(str, delim, e + 1), delim);
    } else {
      JoinOne(str[from..], delim);
    }
  }

  /** The fields joined by the delimiter are the string. */
  lemma JoinFields(str: string, delim: char)
    ensures Join(Fields(str, delim), delim) == str
  {
    hide Join, NextDelim, SplitFrom;
    if str == [] {
      JoinOne([], delim);
    } else {
      hide Fields;
      FieldsUnfold(str, delim);
      var e := NextDelim(str, delim, 1);
      if e < |str| {
        JoinSplit(str, delim, e + 1);
        CutOut(str, 0, e);
        assert str[0..] == str;
        JoinCons(str[0..e], SplitFrom(str, delim, e + 1), delim);
      } else {
        JoinOne(str, delim);
      }
    }
  }

  lemma {:induction false} CountNone(str: string, delim: char)
    requires delim !in str
    ensures Count(str, delim) == 0
  {
    if str != [] {
      CountNone(str[1..], delim);
    }
  }

  lemma {:induction false} CountConcat(a: string, b: string, delim: char)
    ensures Count(a + b, delim) == Count(a, delim) + Count(b, delim)
  {
    if a == [] {
      assert a + b == b;
    } else {
      assert (a + b)[1..] == a[1..] + b;
      CountConcat(a[1..], b, delim);
    }
  }

  lemma CountAround(a: string, b: string, delim: char)
    requires delim !in a
    ensures Count(a + ([delim] + b), delim) == Count(b, delim) + 1
  {
    CountNone(a, delim);
    CountConcat(a, [delim] + b, delim);
    assert ([delim] + b)[1..] == b;
  }

  lemma {:induction false} SplitShape(str: string, delim: char, from: nat)
    requires from <= |str|
    ensures |SplitFrom(str, delim, from)| == Count(str[from..], delim) + 1
    ensures forall i :: 0 <= i < |SplitFrom(str, delim, from)| ==> delim !in SplitFrom(str, delim, from)[i]
    decreases |str| - from
  {
    hide Count;
    var e := NextDelim(str, delim, from);
    if e < |str| {
      SplitShape(str, delim, e + 1);
      assert str[from..] == str[from..e] + ([delim] + str[e + 1..]);
      CountAround(str[from..e], str[e + 1..], delim);
    } else {
      CountNone(str[from..e], delim);
      assert str[from..e] == str[from..];
    }
  }

  /** There is one field more than delimiters behind the first character, and no field holds one except
      that the first field may begin with it. */
  lemma FieldsShape(str: string, delim: char)
    requires str != []
    ensures |Fields(str, delim)| == Count(str[1..], delim) + 1
    ensures Fields(str, delim)[0] != [] && delim !in Fields(str, delim)[0][1..]
    ensures forall i :: 1 <= i < |Fields(str, delim)| ==> delim !in Fields(str, delim)[i]
  {
    hide Count;
    var e := NextDelim(str, delim, 1);
    assert str[..e][1..] == str[1..e];
    if e < |str| {
      SplitShape(str, delim, e + 1);
      assert str[1..] == str[1..e] + ([delim] + str[e + 1..]);
      CountAround(str[1..e], str[e + 1..], delim);
    } else {
      CountNone(str[1..e], delim);
      assert str[1..e] == str[1..];
    }
  }

  /** Fields agree with the plain split at every delimiter exactly when the string does not start with
      one. */
  lemma FieldsArePlainSplit(str: string, delim: char)
    ensures Fields(str, delim) == SplitFrom(str, delim, 0) <==> !([delim] <= str)
  {
    if str == [] {
    } else if str[0] != delim {
      assert NextDelim(str, delim, 0) == NextDelim(str, delim, 1);
      assert str[0..] == str;
    } else {
      assert SplitFrom(str, delim, 0)[0] == [];
      FieldsShape(str, delim);
    }
  }

  /** Field number `index`, or NULL when there is none. The byte behind the end of an empty string is taken
      to be zero. */
  method GetDelimNode(str: string, delim: char, index: int) returns (r: Option<string>)
    ensures r == if 0 <= index < |Fields(str, delim)| then Some(Fields(str, delim)[index]) else None
  {
    hide Fields, SplitFrom, NextDelim;
    if str == [] {
      NoFields(delim);
      return if index == 0 then Some([]) else None;
    }
    var i: nat := 0;
    var start: nat := 0;
    var end: nat := NextDelim(str, delim, 1);
    FirstField(str, delim);
    while i != index && end < |str|
      invariant 0 <= index ==> i <= index
      invariant AtField(str, delim, i, start, end)
      decreases |str| - start
    {
      FieldAt(str, delim, i, start, end);
      i := i + 1;
      start := end;
      end := NextDelim(str, delim, start + 1);
    }
    FieldAt(str, delim, i, start, end);
    if i == index {
      if i > 0 {
        start := start + 1;
      }
      r := Some(str[start..end]);
    } else {
      r := None;
    }
  }

  /** Field `i` ends at `end`; it begins behind `start`, but field 0 begins at 0. */
  ghost predicate AtField(str: string, delim: char, i: nat, start: nat, end: nat) {
    && start < end <= |str| && start < |str| && end == NextDelim(str, delim, start + 1)
    && i < |Fields(str, delim)|
    && (i == 0 ==> start == 0)
    && (i > 0 ==> Fields(str, delim)[i..] == SplitFrom(str, delim, start + 1))
  }

  lemma NoFields(delim: char)
    ensures Fields([], delim) == [[]]
  {}

  lemma FirstField(str: string, delim: char)
    requires str != []
    ensures AtField(str, delim, 0, 0, NextDelim(str, delim, 1))
  {}

  /** The field found, whether it is the last one, and the step to the next. */
  lemma FieldAt(str: string, delim: char, i: nat, start: nat, end: nat)
    requires AtField(str, delim, i, start, end)
    ensures Fields(str, delim)[i] == str[if i == 0 then 0 else start + 1..end]
    ensures end == |str| <==> i + 1 == |Fields(str, delim)|
    ensures end < |str| ==> AtField(str, delim, i + 1, end, NextDelim(str, delim, end + 1))
  {
    hide Fields, SplitFrom, NextDelim;
    if i == 0 {
      FieldsUnfold(str, delim);
      assert str[0..|str|] == str;
    } else {
      SplitUnfolds(str, delim, start + 1);
      assert str[start + 1..|str|] == str[start + 1..];
    }
    RestOfFields(Fields(str, delim), i);
  }

  lemma RestOfFields(fields: seq<string>, i: nat)
    requires i < |fields|
    ensures |fields[i..]| == |fields| - i && fields[i..][0] == fields[i] && fields[i..][1..] == fields[i + 1..]
    ensures fields[0..] == fields
  {}

  // ----- Membership

  /** How many fields a type has, as far as they are told apart. */
  function Depth(fields: seq<string>): (k: nat)
    ensures k <= |fields| && k <= TYPE_DEPTH
  {
    if |fields| < TYPE_DEPTH then |fields| else TYPE_DEPTH
  }

  /** A domain without its flags: the part before the first dot. */
  function WithoutFlags(domain: string): string {
    domain[..NextDelim(domain, '.', 0)]
  }

  /** The fields that a domain is compared by. */
  function DomainFields(domain: string): seq<string> {
    var fields := Fields(WithoutFlags(domain), ':');
    fields[..Depth(fields)]
  }

  /** The domain's fields begin the fields of the type. */
  predicate Contains(domain: string, ty: string)
  {
    DomainFields(domain) <= Fields(ty, ':')
  }

  method GetDepth(ty: string) returns (i: nat)
    ensures i == Depth(Fields(ty, ':'))
  {
    i := 0;
    while i < TYPE_DEPTH
      invariant i <= |Fields(ty, ':')| && i <= TYPE_DEPTH
    {
      var part := GetDelimNode(ty, ':', i);
      if part.None? {
        break;
      }
      i := i + 1;
    }
  }

  method MemberOf(domain: string, ty: string) returns (member: bool)
    requires domain != [] && ty != []
    ensures member <==> Contains(domain, ty)
  {
    hide Fields;
    var ndomain := domain[..NextDelim(domain, '.', 0)];
    ghost var own, others := Fields(ndomain, ':'), Fields(ty, ':');
    var diff, i := 0, 0;
    var depth := GetDepth(ndomain);
    while i < depth
      invariant i <= depth && i <= |others|
      invariant diff == 0 <==> own[..i] == others[..i]
      invariant diff >= 0
    {
      var comp1 := GetDelimNode(ndomain, ':', i);
      var comp2 := GetDelimNode(ty, ':', i);
      if comp1.None? || comp2.None? {
        assert |own[..depth]| > |others|;
        return false;
      }
      assert own[..i + 1] == own[..i] + [own[i]] && others[..i + 1] == others[..i] + [others[i]];
      if comp1.value != comp2.value {
        diff := diff + 1;
      }
      i := i + 1;
    }
    return diff == 0;
  }

  // ----- Membership as a relation

  lemma {:induction false} NextDelimOfPrefix(str: string, delim: char, from: nat, cut: nat)
    requires from <= cut <= |str|
    ensures NextDelim(str[..cut], delim, from)
         == if NextDelim(str, delim, from) < cut then NextDelim(str, delim, from) else cut
    decreases cut - from
  {
    if from < cut && str[from] != delim {
      NextDelimOfPrefix(str, delim, from + 1, cut);
    }
  }

  /** How the fields of a string cut at a dot relate to its own: the first `j` are the same, and the last
      one is what field `j` has before the dot. */
  ghost predicate CutAt(cut: seq<string>, whole: seq<string>, j: nat) {
    && |cut| == j + 1 && j < |whole| && cut[..j] == whole[..j]
    && |cut[j]| < |whole[j]| && whole[j][|cut[j]|] == '.'
  }

  lemma {:induction false} CutSplit(str: string, from: nat, dot: nat) returns (j: nat)
    requires from <= dot < |str| && str[dot] == '.'
    ensures CutAt(SplitFrom(str[..dot], ':', from), SplitFrom(str, ':', from), j)
    decreases dot - from
  {
    var e := NextDelim(str, ':', from);
    NextDelimOfPrefix(str, ':', from, dot);
    if e < dot {
      j := CutSplit(str, e + 1, dot);
      assert str[..dot][from..e] == str[from..e];
      var cut, whole := SplitFrom(str[..dot], ':', from), SplitFrom(str, ':', from);
      assert cut[..j + 1] == [str[from..e]] + cut[1..][..j] && whole[..j + 1] == [str[from..e]] + whole[1..][..j];
      j := j + 1;
    } else {
      j := 0;
    }
  }

  lemma CutFields(str: string, dot: nat) returns (j: nat)
    requires 1 <= dot < |str| && str[dot] == '.'
    ensures CutAt(Fields(str[..dot], ':'), Fields(str, ':'), j)
  {
    var e := NextDelim(str, ':', 1);
    NextDelimOfPrefix(str, ':', 1, dot);
    if e < dot {
      j := CutSplit(str, e + 1, dot);
      assert str[..dot][..e] == str[..e];
      var cut, whole := Fields(str[..dot], ':'), Fields(str, ':');
      assert cut[..j + 1] == [str[..e]] + cut[1..][..j] && whole[..j + 1] == [str[..e]] + whole[1..][..j];
      j := j + 1;
    } else {
      j := 0;
    }
  }

  ghost predicate NoDots(fields: seq<string>) {
    forall i :: 0 <= i < |fields| ==> '.' !in fields[i]
  }

  lemma {:induction false} SplitKeepsCharacters(str: string, from: nat)
    requires from <= |str| && '.' !in str
    ensures NoDots(SplitFrom(str, ':', from))
    decreases |str| - from
  {
    var e := NextDelim(str, ':', from);
    if e < |str| {
      SplitKeepsCharacters(str, e + 1);
    }
  }

  lemma FieldsKeepCharacters(str: string)
    requires '.' !in str
    ensures NoDots(Fields(str, ':'))
  {
    if str != [] && NextDelim(str, ':', 1) < |str| {
      SplitKeepsCharacters(str, NextDelim(str, ':', 1) + 1);
    }
  }

  /** A domain that starts with a dot has nothing but flags, and no type belongs to it. */
  lemma NothingInFlags(domain: string, ty: string)
    requires ['.'] <= domain && ty != []
    ensures !Contains(domain, ty)
  {
    FieldsShape(ty, ':');
    assert NextDelim(domain, '.', 0) == 0;
    assert WithoutFlags(domain) == [] && DomainFields(domain)[0] == [] != Fields(ty, ':')[0];
  }

  /** The fields a domain is compared by are dot-free fields of the domain itself, except for the one that
      its first dot cuts short. */
  lemma DomainFieldsOf(domain: string) returns (dotted: bool, j: nat)
    requires domain != []
    ensures NoDots(Fields(WithoutFlags(domain), ':'))
    ensures !dotted ==> WithoutFlags(domain) == domain
    ensures dotted ==> CutAt(Fields(WithoutFlags(domain), ':'), Fields(domain, ':'), j)
  {
    var dot := NextDelim(domain, '.', 0);
    assert WithoutFlags(domain) == domain[0..dot];
    FieldsKeepCharacters(WithoutFlags(domain));
    dotted, j := dot < |domain|, 0;
    if dotted && 0 < dot {
      hide Fields;
      j := CutFields(domain, dot);
    } else if dotted {
      FieldsShape(domain, ':');
    }
  }

  /** A type belongs to itself as a domain exactly when none of the fields it is compared by has a dot. */
  lemma ContainsItselfIff(ty: string)
    requires ty != []
    ensures Contains(ty, ty) <==> NoDots(Fields(ty, ':')[..Depth(Fields(ty, ':'))])
  {
    var dotted, j := DomainFieldsOf(ty);
    hide Fields, WithoutFlags;
    var own, fields := Fields(WithoutFlags(ty), ':'), Fields(ty, ':');
    if dotted {
      if j < TYPE_DEPTH {
        assert DomainFields(ty)[j] == own[j] != fields[j];
        assert '.' in fields[..Depth(fields)][j];
      } else {
        assert own[..TYPE_DEPTH] == own[..j][..TYPE_DEPTH] == fields[..TYPE_DEPTH];
      }
    }
  }

  lemma DotFreePrefix(prefix: seq<string>, cut: seq<string>, whole: seq<string>, j: nat)
    requires prefix <= whole && NoDots(prefix) && CutAt(cut, whole, j)
    ensures prefix <= cut && |prefix| <= j
  {
    assert '.' in whole[j];
    assert forall n :: 0 <= n < |prefix| ==> prefix[n] == whole[n] && '.' !in whole[n];
    assert prefix == whole[..j][..|prefix|] == cut[..j][..|prefix|];
  }

  /** Belonging is transitive, flags or not. */
  lemma ContainsTransitive(a: string, b: string, c: string)
    requires a != [] && b != [] && c != []
    requires Contains(a, b) && Contains(b, c)
    ensures Contains(a, c)
  {
    var dottedA, i := DomainFieldsOf(a);
    var dotted, j := DomainFieldsOf(b);
    var own := Fields(WithoutFlags(b), ':');
    if dotted {
      DotFreePrefix(DomainFields(a), own, Fields(b, ':'), j);
    }
    hide Fields, WithoutFlags;
    assert DomainFields(a) <= own[..Depth(own)];
  }

  // ----- Membership read off the strings

  lemma {:induction false} NextDelimExtended(str: string, delim: char, more: string, from: nat)
    requires from <= |str|
    ensures NextDelim(str + [delim] + more, delim, from) == NextDelim(str, delim, from)
    decreases |str| - from
  {
    if from < |str| && str[from] != delim {
      NextDelimExtended(str, delim, more, from + 1);
    }
  }

  lemma {:induction false} NextDelimShifted(front: string, back: string, delim: char, from: nat)
    requires from <= |back|
    ensures NextDelim(front + back, delim, |front| + from) == |front| + NextDelim(back, delim, from)
    decreases |back| - from
  {
    if from < |back| && back[from] != delim {
      NextDelimShifted(front, back, delim, from + 1);
    }
  }

  lemma {:induction false} SplitShifted(front: string, back: string, delim: char, from: nat)
    requires from <= |back|
    ensures SplitFrom(front + back, delim, |front| + from) == SplitFrom(back, delim, from)
    decreases |back| - from
  {
    hide NextDelim, SplitFrom;
    var all, e := front + back, NextDelim(back, delim, from);
    NextDelimShifted(front, back, delim, from);
    SplitUnfolds(all, delim, |front| + from);
    SplitUnfolds(back, delim, from);
    assert all[|front| + from..|front| + e] == back[from..e];
    if e < |back| {
      SplitShifted(front, back, delim, e + 1);
    } else {
      assert all[|front| + from..] == back[from..];
    }
  }

  lemma {:induction false} SplitExtended(str: string, delim: char, more: string, from: nat)
    requires from <= |str|
    ensures SplitFrom(str + [delim] + more, delim, from) == SplitFrom(str, delim, from) + SplitFrom(more, delim, 0)
    decreases |str| - from
  {
    hide NextDelim, SplitFrom;
    var all, e := str + [delim] + more, NextDelim(str, delim, from);
    NextDelimExtended(str, delim, more, from);
    SplitUnfolds(all, delim, from);
    SplitUnfolds(str, delim, from);
    assert all[from..e] == str[from..e];
    if e < |str| {
      SplitExtended(str, delim, more, e + 1);
    } else {
      assert str[from..e] == str[from..];
      SplitShifted(str + [delim], more, delim, 0);
    }
  }

  /** What is put behind a string, with a delimiter between, adds its own fields. */
  lemma FieldsExtended(str: string, delim: char, more: string)
    requires str != []
    ensures Fields(str + [delim] + more, delim) == Fields(str, delim) + SplitFrom(more, delim, 0)
  {
    hide NextDelim, SplitFrom, Fields;
    var all, e := str + [delim] + more, NextDelim(str, delim, 1);
    NextDelimExtended(str, delim, more, 1);
    FieldsUnfold(all, delim);
    FieldsUnfold(str, delim);
    assert all[0..e] == str[0..e];
    if e < |str| {
      SplitExtended(str, delim, more, e + 1);
    } else {
      assert str[0..e] == str;
      SplitShifted(str + [delim], more, delim, 0);
    }
  }

  lemma {:induction false} JoinConcat(a: seq<string>, b: seq<string>, delim: char)
    requires a != [] && b != []
    ensures Join(a + b, delim) == Join(a, delim) + [delim] + Join(b, delim)
  {
    hide Join;
    var first, rest := a[0], a[1..];
    if rest == [] {
      assert a == [first] && a + b == [first] + b;
      JoinCons(first, b, delim);
      JoinOne(first, delim);
    } else {
      JoinConcat(rest, b, delim);
      assert a + b == [first] + (rest + b) && a == [first] + rest;
      JoinCons(first, rest + b, delim);
      JoinCons(first, rest, delim);
    }
  }

  /** Fields that a string can have. */
  ghost predicate FieldsLike(fields: seq<string>, delim: char)
    requires fields != []
  {
    && fields[0] != [] && delim !in fields[0][1..]
    && forall i :: 1 <= i < |fields| ==> delim !in fields[i]
  }

  lemma NoDelim(field: string, delim: char, from: nat)
    requires from <= |field| && delim !in field[from..]
    ensures NextDelim(field, delim, from) == |field|
  {
    assert forall i :: from <= i < |field| ==> field[from..][i - from] == field[i];
  }

  /** Fields that are joined come apart again. */
  lemma {:induction false} FieldsOfJoin(fields: seq<string>, delim: char)
    requires fields != [] && FieldsLike(fields, delim)
    ensures Join(fields, delim) != [] && Fields(Join(fields, delim), delim) == fields
  {
    var last := |fields| - 1;
    if last == 0 {
      NoDelim(fields[0], delim, 1);
    } else {
      hide Join, Fields, NextDelim;
      var front := fields[..last];
      FieldsOfJoin(front, delim);
      assert fields == front + [fields[last]];
      JoinConcat(front, [fields[last]], delim);
      JoinOne(fields[last], delim);
      FieldsExtended(Join(front, delim), delim, fields[last]);
      assert fields[last][0..] == fields[last];
      NoDelim(fields[last], delim, 0);
      assert SplitFrom(fields[last], delim, 0) == [fields[last]];
    }
  }

  /** The part of a domain that types are compared with. */
  function Compared(domain: string): string {
    Join(DomainFields(domain), ':')
  }

  /** Which part that is: all up to the first dot, if that has at most three fields, else the first three
      fields of it. */
  lemma ComparedPart(domain: string)
    ensures
      var plain := WithoutFlags(domain);
      if |Fields(plain, ':')| <= 3 then Compared(domain) == plain
      else Compared(domain) + [':'] <= plain && |Fields(Compared(domain), ':')| == 3
  {
    hide Fields, Join, WithoutFlags;
    var plain := WithoutFlags(domain);
    var fields, own := Fields(plain, ':'), DomainFields(domain);
    JoinFields(plain, ':');
    if |fields| <= 3 {
      assert own == fields;
    } else {
      PlainNotEmpty(plain);
      FieldsShape(plain, ':');
      FieldsOfJoin(own, ':');
      assert fields == own + fields[3..];
      JoinConcat(own, fields[3..], ':');
    }
  }

  lemma PlainNotEmpty(str: string)
    requires |Fields(str, ':')| > 1
    ensures str != []
  {}

  /** Fields begin those of a type exactly when the type is their join, or begins with it and a delimiter. */
  lemma BeginsIff(own: seq<string>, ty: string, delim: char)
    requires own != [] && FieldsLike(own, delim)
    ensures own <= Fields(ty, delim) <==> (ty == Join(own, delim) || Join(own, delim) + [delim] <= ty)
  {
    hide Fields, Join, SplitFrom, FieldsLike;
    var fields, part := Fields(ty, delim), Join(own, delim);
    FieldsOfJoin(own, delim);
    JoinFields(ty, delim);
    if own <= fields && own != fields {
      assert fields == own + fields[|own|..];
      JoinConcat(own, fields[|own|..], delim);
    }
    if part + [delim] <= ty {
      var more := ty[|part| + 1..];
      assert ty == part + [delim] + more;
      FieldsExtended(part, delim, more);
    }
  }

  /** A type belongs to a domain exactly when it is the compared part of it, or begins with that part and a
      colon; a domain that has flags only has no members. */
  lemma ContainsIff(domain: string, ty: string)
    requires domain != [] && ty != []
    ensures Contains(domain, ty) <==>
      (domain[0] != '.' && (ty == Compared(domain) || Compared(domain) + [':'] <= ty))
  {
    if domain[0] == '.' {
      NothingInFlags(domain, ty);
    } else {
      hide Fields, Join;
      assert WithoutFlags(domain) != [];
      FieldsShape(WithoutFlags(domain), ':');
      BeginsIff(DomainFields(domain), ty, ':');
    }
  }
}
