/**
 * Domain names on the wire: `encodeName` and `decodeName` of examples/dns-server/dns-message.js
 * (sections 3.1 and 4.1.4 of RFC 1035).
 *
 * A name is read twice here: `Labels` follows compression pointers, as many as a budget allows,
 * and `NameEnd` finds where the name ends as it stands at its offset.  The loop of the original
 * does both at once.
 */
module DnsName {
  import opened DnsBytes
  import opened Seqs
  import opened Wrappers

  const MAX_JUMPS: nat := 128

  // Decoding

  predicate IsPointer(b: byte) {
    b >= 0xc0
  }

  function Pointer(buf: seq<byte>, pos: nat): (p: nat)
    requires pos + 1 < |buf| && IsPointer(buf[pos])
    ensures p < 0x4000
  {
    var hi: int := buf[pos] - 0xc0;
    256 * hi + buf[pos + 1]
  }

  function LabelAt(buf: seq<byte>, pos: nat): string
    requires pos < |buf| && pos + 1 + buf[pos] <= |buf|
  {
    BytesToLabel(buf[pos + 1..pos + 1 + buf[pos]])
  }

  /** The labels of the name at `pos`, following at most `budget` pointers. */
  function Labels(buf: seq<byte>, pos: nat, budget: nat): Option<seq<string>>
    decreases budget, |buf| - pos
  {
    if pos >= |buf| then None
    else if IsPointer(buf[pos]) then
      if pos + 1 >= |buf| || budget == 0 then None else Labels(buf, Pointer(buf, pos), budget - 1)
    else if buf[pos] == 0 then Some([])
    else if pos + 1 + buf[pos] > |buf| then None
    else
      var rest :- Labels(buf, pos + 1 + buf[pos], budget);
      Some([LabelAt(buf, pos)] + rest)
  }

  /** Where the name at `pos` ends: behind its zero byte or its first pointer. */
  function NameEnd(buf: seq<byte>, pos: nat): Option<nat>
    decreases |buf| - pos
  {
    if pos >= |buf| then None
    else if IsPointer(buf[pos]) then if pos + 1 >= |buf| then None else Some(pos + 2)
    else if buf[pos] == 0 then Some(pos + 1)
    else if pos + 1 + buf[pos] > |buf| then None
    else NameEnd(buf, pos + 1 + buf[pos])
  }

  function NameText(labels: seq<string>): string {
    if labels == [] then "." else Join(labels, '.') + "."
  }

  datatype Decoded<T> = Decoded(value: T, next: nat)

  /** `decodeName`; `None` stands for a thrown error. */
  function DecodeName(buf: seq<byte>, offset: nat): Option<Decoded<string>> {
    var labels :- Labels(buf, offset, MAX_JUMPS);
    var next :- NameEnd(buf, offset);
    Some(Decoded(NameText(labels), next))
  }

  function Prepend(labels: seq<string>, rest: Option<seq<string>>): Option<seq<string>> {
    if rest.None? then None else Some(labels + rest.value)
  }

  /** The loop of `decodeName`, which ends on every buffer because jumps or position grow. */
  method DecodeNameLoop(buf: seq<byte>, offset: nat) returns (r: Option<Decoded<string>>)
    ensures r == DecodeName(buf, offset)
  {
    var labels: seq<string> := [];
    var pos: nat := offset;
    var next: int := -1;
    var jumps := 0;
    ghost var all := Labels(buf, offset, MAX_JUMPS);
    assert all.Some? ==> [] + all.value == all.value;
    while true
      invariant 0 <= jumps <= MAX_JUMPS
      invariant Labels(buf, offset, MAX_JUMPS) == Prepend(labels, Labels(buf, pos, MAX_JUMPS - jumps))
      invariant NameEnd(buf, offset) == if next < 0 then NameEnd(buf, pos) else Some(next)
      decreases MAX_JUMPS - jumps, |buf| - pos
    {
      if pos >= |buf| {
        return None;
      }
      var len := buf[pos];
      if len >= 0xc0 {
        if pos + 1 >= |buf| {
          return None;
        }
        if next == -1 {
          next := pos + 2;
        }
        jumps := jumps + 1;
        if jumps > 128 {
          return None;
        }
        pos := Pointer(buf, pos);
        continue;
      }
      if len == 0 {
        if next == -1 {
          next := pos + 1;
        }
        break;
      }
      if pos + 1 + len > |buf| {
        return None;
      }
      PrependOne(labels, LabelAt(buf, pos), Labels(buf, pos + 1 + len, MAX_JUMPS - jumps));
      labels := labels + [LabelAt(buf, pos)];
      pos := pos + 1 + len;
    }
    assert labels + [] == labels;
    return Some(Decoded(NameText(labels), next));
  }

  lemma PrependOne(labels: seq<string>, text: string, rest: Option<seq<string>>)
    ensures Prepend(labels, Prepend([text], rest)) == Prepend(labels + [text], rest)
  {
    if rest.Some? {
      assert labels + ([text] + rest.value) == labels + [text] + rest.value;
    }
  }

  /** The end of a name lies behind its start and inside the message. */
  lemma {:induction false} NextBounds(buf: seq<byte>, offset: nat)
    ensures NameEnd(buf, offset).Some? ==> offset < NameEnd(buf, offset).value <= |buf|
    decreases |buf| - offset
  {
    if offset < |buf| && 0 < buf[offset] < 0xc0 && offset + 1 + buf[offset] <= |buf| {
      NextBounds(buf, offset + 1 + buf[offset]);
    }
  }

  /** It depends only on the bytes up to it: those before and including the first pointer. */
  lemma {:induction false} NextIsLocal(buf: seq<byte>, other: seq<byte>, offset: nat)
    requires NameEnd(buf, offset).Some? && NameEnd(buf, offset).value <= |other|
    requires forall k :: offset <= k < NameEnd(buf, offset).value && k < |buf| ==> other[k] == buf[k]
    ensures NameEnd(other, offset) == NameEnd(buf, offset)
    decreases |buf| - offset
  {
    NextBounds(buf, offset);
    assert other[offset] == buf[offset];
    if 0 < buf[offset] < 0xc0 {
      NextBounds(buf, offset + 1 + buf[offset]);
      NextIsLocal(buf, other, offset + 1 + buf[offset]);
    }
  }

  lemma {:induction false} LabelsHaveEnd(buf: seq<byte>, pos: nat, budget: nat)
    requires Labels(buf, pos, budget).Some?
    ensures NameEnd(buf, pos).Some?
    decreases |buf| - pos
  {
    if 0 < buf[pos] < 0xc0 {
      LabelsHaveEnd(buf, pos + 1 + buf[pos], budget);
    }
  }

  /** More budget never changes a name that was read. */
  lemma {:induction false} BudgetGrows(buf: seq<byte>, pos: nat, budget: nat, more: nat)
    requires Labels(buf, pos, budget).Some? && budget <= more
    ensures Labels(buf, pos, more) == Labels(buf, pos, budget)
    decreases budget, |buf| - pos
  {
    if IsPointer(buf[pos]) {
      BudgetGrows(buf, Pointer(buf, pos), budget - 1, more - 1);
    } else if buf[pos] != 0 {
      BudgetGrows(buf, pos + 1 + buf[pos], budget, more);
    }
  }

  predicate StaysIn(buf: seq<byte>, trap: set<nat>, p: nat) {
    && p < |buf| && buf[p] != 0
    && (if IsPointer(buf[p]) then p + 1 < |buf| ==> Pointer(buf, p) in trap
        else p + 1 + buf[p] <= |buf| ==> p + 1 + buf[p] in trap)
  }

  /** Positions that labels and pointers never lead out of. */
  ghost predicate Trap(buf: seq<byte>, trap: set<nat>) {
    forall p :: p in trap ==> StaysIn(buf, trap, p)
  }

  /** No name is read from a cycle of pointers, with or without labels between them. */
  lemma {:induction false} TrapFails(buf: seq<byte>, trap: set<nat>, pos: nat, budget: nat)
    requires Trap(buf, trap) && pos in trap
    ensures Labels(buf, pos, budget).None?
    decreases budget, |buf| - pos
  {
    assert StaysIn(buf, trap, pos);
    if IsPointer(buf[pos]) {
      if pos + 1 < |buf| && budget > 0 {
        TrapFails(buf, trap, Pointer(buf, pos), budget - 1);
      }
    } else if pos + 1 + buf[pos] <= |buf| {
      TrapFails(buf, trap, pos + 1 + buf[pos], budget);
    }
  }

  // Encoding

  function WithoutDot(name: string): string {
    if name != "" && name[|name| - 1] == '.' then name[..|name| - 1] else name
  }

  function NameLabels(name: string): seq<string> {
    if name == "." || name == "" then [] else Split(WithoutDot(name), '.')
  }

  function LabelsBytes(labels: seq<string>): seq<byte>
    requires forall k :: 0 <= k < |labels| ==> |labels[k]| <= 63
  {
    if labels == [] then []
    else [|labels[0]| as byte] + LabelBytes(labels[0]) + LabelsBytes(labels[1..])
  }

  predicate Short(labels: seq<string>) {
    forall k :: 0 <= k < |labels| ==> |labels[k]| <= 63
  }

  /** `encodeName`; `None` is the error of a label that is too long. */
  function EncodeName(name: string): Option<seq<byte>> {
    var labels := NameLabels(name);
    if Short(labels) then Some(LabelsBytes(labels) + [0]) else None
  }

  lemma {:induction false} LabelsBytesAppend(a: seq<string>, b: seq<string>)
    requires Short(a) && Short(b)
    ensures Short(a + b) && LabelsBytes(a + b) == LabelsBytes(a) + LabelsBytes(b)
  {
    if a == [] {
      assert a + b == b;
    } else {
      LabelsBytesAppend(a[1..], b);
      assert (a + b)[1..] == a[1..] + b && (a + b)[0] == a[0];
      var head := [|a[0]| as byte] + LabelBytes(a[0]);
      Assoc(head, LabelsBytes(a[1..]), LabelsBytes(b));
    }
  }

  method EncodeNameLoop(name: string) returns (r: Option<seq<byte>>)
    ensures r == EncodeName(name)
  {
    var parts: seq<byte> := [];
    if name != "." && name != "" {
      var labels := Split(WithoutDot(name), '.');
      for k := 0 to |labels|
        invariant Short(labels[..k]) && parts == LabelsBytes(labels[..k])
      {
        var lb := LabelBytes(labels[k]);
        if |lb| > 63 {
          return None;
        }
        assert labels[..k + 1] == labels[..k] + [labels[k]];
        LabelsBytesAppend(labels[..k], [labels[k]]);
        assert LabelsBytes([labels[k]]) == [|lb| as byte] + lb;
        parts := parts + [|lb| as byte] + lb;
      }
      assert labels[..|labels|] == labels;
    }
    return Some(parts + [0]);
  }

  // Round trip

  predicate GoodLabel(text: string) {
    0 < |text| <= 63 && Latin(text)
  }

  predicate GoodLabels(labels: seq<string>) {
    forall k :: 0 <= k < |labels| ==> GoodLabel(labels[k])
  }

  /** A name in the form `decodeName` returns. */
  predicate Canonical(name: string) {
    name == "." || (name != "" && name[|name| - 1] == '.' && GoodLabels(NameLabels(name)))
  }

  lemma LabelReads(buf: seq<byte>, at: nat, text: string)
    requires GoodLabel(text) && StandsAt(buf, at, [|text| as byte] + LabelBytes(text))
    ensures at + 1 + |text| <= |buf| && buf[at] == |text| && LabelAt(buf, at) == text
  {
    StandsSplit(buf, at, [|text| as byte], LabelBytes(text));
    HoldsSlice(buf, at + 1, LabelBytes(text));
    assert buf[at] == [|text| as byte][0];
    LabelRoundTrip(text);
  }

  /** Good labels at `at` are read in front of whatever follows them. */
  lemma {:induction false} LabelsPrefix(buf: seq<byte>, at: nat, labels: seq<string>, budget: nat)
    requires GoodLabels(labels) && StandsAt(buf, at, LabelsBytes(labels))
    ensures
      var behind := at + |LabelsBytes(labels)|;
      && Labels(buf, at, budget) == Prepend(labels, Labels(buf, behind, budget))
      && NameEnd(buf, at) == NameEnd(buf, behind)
    decreases |labels|
  {
    if labels == [] {
      var rest := Labels(buf, at, budget);
      assert rest.Some? ==> [] + rest.value == rest.value;
    } else {
      var head := [|labels[0]| as byte] + LabelBytes(labels[0]);
      StandsSplit(buf, at, head, LabelsBytes(labels[1..]));
      LabelReads(buf, at, labels[0]);
      LabelsPrefix(buf, at + 1 + |labels[0]|, labels[1..], budget);
      PrependOne([], labels[0], Labels(buf, at + |LabelsBytes(labels)|, budget));
      PrependSplit(labels, Labels(buf, at + |LabelsBytes(labels)|, budget));
    }
  }

  lemma PrependSplit(labels: seq<string>, rest: Option<seq<string>>)
    requires labels != []
    ensures Prepend([labels[0]], Prepend(labels[1..], rest)) == Prepend(labels, rest)
  {
    if rest.Some? {
      assert [labels[0]] + (labels[1..] + rest.value) == labels + rest.value;
    }
  }

  lemma CanonicalText(name: string)
    requires Canonical(name)
    ensures GoodLabels(NameLabels(name)) && NameText(NameLabels(name)) == name
  {
    hide Split, Join;
    if name != "." {
      JoinSplit(WithoutDot(name), '.');
    }
  }

  /** A canonical name written anywhere in a message is read back, with the position behind it. */
  lemma NameReads(buf: seq<byte>, at: nat, name: string)
    requires Canonical(name)
    ensures EncodeName(name).Some?
    ensures StandsAt(buf, at, EncodeName(name).value) ==>
              DecodeName(buf, at) == Some(Decoded(name, at + |EncodeName(name).value|))
  {
    hide NameLabels, NameText, Canonical;
    CanonicalText(name);
    var labels := NameLabels(name);
    assert Short(labels);
    if StandsAt(buf, at, EncodeName(name).value) {
      SuffixEnd(buf, at, labels, MAX_JUMPS);
    }
  }

  function PointerBytes(p: nat): seq<byte>
    requires p < 0x4000
  {
    [0xc0 + p / 256, p % 256]
  }

  /**
   * Labels followed by a pointer denote those labels and the name pointed at, if that name is read
   * with one jump less; the name ends behind the pointer.
   */
  lemma SuffixPointer(buf: seq<byte>, at: nat, labels: seq<string>, p: nat, budget: nat)
    requires p < 0x4000 && GoodLabels(labels) && StandsAt(buf, at, LabelsBytes(labels) + PointerBytes(p))
    ensures Labels(buf, at, budget) == if budget == 0 then None else Prepend(labels, Labels(buf, p, budget - 1))
    ensures NameEnd(buf, at) == Some(at + |LabelsBytes(labels)| + 2)
  {
    hide NameText, LabelsBytes;
    StandsSplit(buf, at, LabelsBytes(labels), PointerBytes(p));
    LabelsPrefix(buf, at, labels, budget);
    var behind := at + |LabelsBytes(labels)|;
    assert buf[behind] == PointerBytes(p)[0] && buf[behind + 1] == PointerBytes(p)[1];
    assert Pointer(buf, behind) == p;
  }

  /** A part of a name: labels at a position. */
  datatype Part = Part(at: nat, labels: seq<string>)

  /** Each part ends with a pointer to the next, and the last with a zero byte. */
  predicate PointsOn(buf: seq<byte>, parts: seq<Part>)
    decreases |parts|
  {
    && parts != [] && GoodLabels(parts[0].labels)
    && if |parts| == 1 then StandsAt(buf, parts[0].at, LabelsBytes(parts[0].labels) + [0])
       else
         && parts[1].at < 0x4000
         && StandsAt(buf, parts[0].at, LabelsBytes(parts[0].labels) + PointerBytes(parts[1].at))
         && PointsOn(buf, parts[1..])
  }

  function PartLabels(parts: seq<Part>): seq<string> {
    if parts == [] then [] else parts[0].labels + PartLabels(parts[1..])
  }

  /** Where the name that starts with the first part ends: behind its zero byte or its pointer. */
  function BehindPart(parts: seq<Part>): nat
    requires parts != [] && GoodLabels(parts[0].labels)
  {
    parts[0].at + |LabelsBytes(parts[0].labels)| + (if |parts| == 1 then 1 else 2)
  }

  lemma {:induction false} PointersFollowed(buf: seq<byte>, parts: seq<Part>, budget: nat)
    requires PointsOn(buf, parts)
    ensures Labels(buf, parts[0].at, budget) == if |parts| - 1 <= budget then Some(PartLabels(parts)) else None
    ensures NameEnd(buf, parts[0].at) == Some(BehindPart(parts))
    decreases |parts|
  {
    hide Labels, NameEnd;
    var labels := parts[0].labels;
    if |parts| == 1 {
      SuffixEnd(buf, parts[0].at, labels, budget);
      assert PartLabels(parts) == labels + PartLabels([]) == labels;
    } else {
      SuffixPointer(buf, parts[0].at, labels, parts[1].at, budget);
      if budget > 0 {
        PointersFollowed(buf, parts[1..], budget - 1);
      }
    }
  }

  /** Pointers to pointers are followed up to the limit: a chain of `k` of them decodes if and only if `k <= 128`. */
  lemma PointerLimit(buf: seq<byte>, parts: seq<Part>)
    requires PointsOn(buf, parts)
    ensures DecodeName(buf, parts[0].at).Some? <==> |parts| - 1 <= 128
    ensures |parts| - 1 <= 128 ==>
              DecodeName(buf, parts[0].at) == Some(Decoded(NameText(PartLabels(parts)), BehindPart(parts)))
  {
    hide Labels, NameEnd, NameText;
    PointersFollowed(buf, parts, MAX_JUMPS);
  }

  lemma SuffixEnd(buf: seq<byte>, at: nat, labels: seq<string>, budget: nat)
    requires GoodLabels(labels) && StandsAt(buf, at, LabelsBytes(labels) + [0])
    ensures Labels(buf, at, budget) == Some(labels) && NameEnd(buf, at) == Some(at + |LabelsBytes(labels)| + 1)
  {
    hide LabelsBytes;
    StandsSplit(buf, at, LabelsBytes(labels), [0]);
    LabelsPrefix(buf, at, labels, budget);
    assert buf[at + |LabelsBytes(labels)|] == [0][0];
    assert labels + [] == labels;
  }

  /** A name whose suffix was written before may end with a pointer to that suffix. */
  lemma CompressedName(buf: seq<byte>, at: nat, labels: seq<string>, p: nat, suffix: seq<string>)
    requires p < 0x4000 && GoodLabels(labels) && GoodLabels(suffix)
    requires StandsAt(buf, p, LabelsBytes(suffix) + [0]) && StandsAt(buf, at, LabelsBytes(labels) + PointerBytes(p))
    ensures DecodeName(buf, at) == Some(Decoded(NameText(labels + suffix), at + |LabelsBytes(labels)| + 2))
  {
    hide Labels, NameEnd, NameText;
    SuffixEnd(buf, p, suffix, MAX_JUMPS - 1);
    SuffixPointer(buf, at, labels, p, MAX_JUMPS);
  }

  // Which names survive

  /** What is read of encoded labels: up to the first empty one, with characters cut to bytes. */
  function Cut(labels: seq<string>): seq<string> {
    if labels == [] || labels[0] == "" then []
    else [BytesToLabel(LabelBytes(labels[0]))] + Cut(labels[1..])
  }

  lemma {:induction false} LabelsCut(buf: seq<byte>, at: nat, labels: seq<string>, budget: nat)
    requires Short(labels) && StandsAt(buf, at, LabelsBytes(labels) + [0])
    ensures Labels(buf, at, budget) == Some(Cut(labels))
    decreases |labels|
  {
    StandsSplit(buf, at, LabelsBytes(labels), [0]);
    if labels == [] {
      assert buf[at] == [0][0];
    } else {
      var head := [|labels[0]| as byte];
      var text := LabelBytes(labels[0]);
      var rest := LabelsBytes(labels[1..]);
      Assoc(head + text, rest, [0]);
      StandsSplit(buf, at, head + text, rest + [0]);
      StandsSplit(buf, at, head, text);
      assert buf[at] == head[0];
      HoldsSlice(buf, at + 1, text);
      if labels[0] != "" {
        LabelsCut(buf, at + 1 + |text|, labels[1..], budget);
      }
    }
  }

  /** Cutting keeps the length of the joined text only if there is nothing to cut. */
  lemma {:induction false} CutLength(labels: seq<string>)
    ensures |Join(Cut(labels), '.')| <= |Join(labels, '.')|
    ensures |Join(Cut(labels), '.')| == |Join(labels, '.')| && Cut(labels) != [] ==>
              forall k :: 0 <= k < |labels| ==> labels[k] != ""
  {
    if labels != [] && labels[0] != "" && |labels| > 1 {
      CutLength(labels[1..]);
      var first := BytesToLabel(LabelBytes(labels[0]));
      if Cut(labels[1..]) != [] {
        JoinCons(first, Cut(labels[1..]), '.');
      }
    }
  }

  lemma {:induction false} CutLatin(labels: seq<string>)
    ensures Latin(Join(Cut(labels), '.'))
  {
    if labels != [] && labels[0] != "" {
      CutLatin(labels[1..]);
      var first := BytesToLabel(LabelBytes(labels[0]));
      if Cut(labels[1..]) != [] {
        JoinCons(first, Cut(labels[1..]), '.');
      }
    }
  }

  lemma {:induction false} LatinParts(parts: seq<string>)
    requires Latin(Join(parts, '.'))
    ensures forall k :: 0 <= k < |parts| ==> Latin(parts[k])
  {
    if |parts| > 1 {
      var rest := Join(parts[1..], '.');
      var text := parts[0] + ['.'] + rest;
      assert forall k :: 0 <= k < |parts[0]| ==> text[k] == parts[0][k];
      assert forall k :: 0 <= k < |rest| ==> text[|parts[0]| + 1 + k] == rest[k];
      LatinParts(parts[1..]);
    }
  }

  /** Whatever name was encoded, this is what is read back. */
  lemma EncodedReads(name: string)
    requires EncodeName(name).Some?
    ensures
      var r := DecodeName(EncodeName(name).value, 0);
      r.Some? && r.value.value == NameText(Cut(NameLabels(name)))
  {
    hide NameText, Cut, NameLabels, LabelsBytes;
    LabelsCut(EncodeName(name).value, 0, NameLabels(name), MAX_JUMPS);
    LabelsHaveEnd(EncodeName(name).value, 0, MAX_JUMPS);
  }

  /** Without its final dot a name comes back with one. */
  lemma NoFinalDot()
    ensures EncodeName("a").Some? && DecodeName(EncodeName("a").value, 0).Some?
    ensures DecodeName(EncodeName("a").value, 0).value.value == "a."
  {
    SplitNone("a");
    EncodedReads("a");
    OneLabel("a");
  }

  /** An empty label ends the name. */
  lemma EmptyLabel()
    ensures EncodeName("a..b.").Some? && DecodeName(EncodeName("a..b.").value, 0).Some?
    ensures DecodeName(EncodeName("a..b.").value, 0).value.value == "a."
  {
    hide EncodeName, DecodeName, Split;
    ThreeLabels();
    OneLabel("a");
    EncodedReads("a..b.");
  }

  lemma ThreeLabels()
    ensures NameLabels("a..b.") == ["a", "", "b"] && EncodeName("a..b.").Some?
    ensures Cut(["a", "", "b"]) == Cut(["a"])
  {
    hide Split, Cut, LabelsBytes;
    assert WithoutDot("a..b.") == "a..b";
    ThreeParts();
    CutAtEmpty("a", ["b"]);
    assert ["a"] + ([""] + ["b"]) == ["a", "", "b"];
  }

  lemma ThreeParts()
    ensures Split("a..b", '.') == ["a", "", "b"]
  {
    hide Split;
    assert "a" + ['.'] + ".b" == "a..b" && "" + ['.'] + "b" == ".b";
    SplitCons("a", '.', ".b");
    SplitCons("", '.', "b");
    SplitNone("b");
  }

  lemma SplitNone(s: string)
    requires '.' !in s
    ensures Split(s, '.') == [s]
  {
  }

  lemma CutAtEmpty(first: string, rest: seq<string>)
    ensures Cut([first] + ([""] + rest)) == Cut([first]) && [first] + ([""] + rest) == [first, ""] + rest
  {
    var labels := [first] + ([""] + rest);
    assert labels[1..] == [""] + rest && [first][1..] == [];
  }

  /** Of a character above 255 only the low byte is left. */
  lemma WideCharacter()
    ensures EncodeName("\U{0141}.").Some? && DecodeName(EncodeName("\U{0141}.").value, 0).Some?
    ensures DecodeName(EncodeName("\U{0141}.").value, 0).value.value == "A."
  {
    var label_ := "\U{0141}";
    assert WithoutDot("\U{0141}.") == label_;
    SplitNone(label_);
    EncodedReads("\U{0141}.");
    assert BytesToLabel(LabelBytes(label_)) == "A";
    assert Cut([label_]) == ["A"] + Cut([]);
  }

  lemma OneLabel(text: string)
    requires GoodLabel(text)
    ensures Cut([text]) == [text] && NameText([text]) == text + "."
  {
    LabelRoundTrip(text);
    assert Cut([text]) == [text] + Cut([]);
  }

  /** A name is read back as it was written exactly when it is canonical. */
  lemma NameRoundTrip(name: string)
    ensures Canonical(name) <==>
      && EncodeName(name).Some?
      && DecodeName(EncodeName(name).value, 0).Some?
      && DecodeName(EncodeName(name).value, 0).value.value == name
  {
    if Canonical(name) {
      NameReads(EncodeName(name).value, 0, name);
    }
    if EncodeName(name).Some? {
      var buf := EncodeName(name).value;
      var labels := NameLabels(name);
      LabelsCut(buf, 0, labels, MAX_JUMPS);
      if NameText(Cut(labels)) == name {
        SurvivorIsCanonical(name);
      }
    }
  }

  lemma SurvivorIsCanonical(name: string)
    requires Short(NameLabels(name)) && NameText(Cut(NameLabels(name))) == name
    ensures Canonical(name)
  {
    var labels := NameLabels(name);
    if Cut(labels) != [] {
      CutLength(labels);
      CutLatin(labels);
      assert name[|name| - 1] == '.';
      JoinSplit(WithoutDot(name), '.');
      assert WithoutDot(name) == Join(Cut(labels), '.');
      LatinParts(labels);
    }
  }
}
