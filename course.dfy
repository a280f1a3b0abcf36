/**
 * The course data model of the class-schedule planner: the raw catalog
 * record of a class, the three section kinds, and the read-only views
 * (Timeslot, Section, Class) derived from a raw record.
 *
 * JavaScript numbers are modelled as `real` where they are credit units,
 * hours or ratings, and as `int` where they are positions on the weekly
 * slot grid.
 */
module Course {

  datatype Option<+T> = None | Some(value: T)

  /** A raw timeslot: the start slot on the weekly grid and its length in slots. */
  datatype RawTimeslot = RawTimeslot(startSlot: int, numSlots: int)

  /** A raw section: its timeslots and the room label. */
  datatype RawSection = RawSection(slots: seq<RawTimeslot>, room: string)

  /**
   * The fields of a raw catalog record that the model reads: the class
   * number `no`, the name `n`, the section-kind letters `s`, the raw
   * lecture, recitation and lab sections `l`, `r`, `b`, the three unit
   * components, the evaluation rating `ra` and the evaluation hours `h`.
   */
  datatype RawClass = RawClass(
    no: string,
    n: string,
    s: seq<string>,
    l: seq<RawSection>,
    r: seq<RawSection>,
    b: seq<RawSection>,
    u1: real,
    u2: real,
    u3: real,
    ra: real,
    h: real)

  /** The section kinds; each one's value in the source enum is a one-letter string. */
  datatype SectionKind = Lecture | Recitation | Lab {
    function Letter(): string {
      match this
      case Lecture => "l"
      case Recitation => "r"
      case Lab => "b"
    }
  }

  /**
   * The lookup of a raw kind letter in the object literal of the
   * `sectionKinds` getter. A letter that is not a key of the literal
   * gives no section kind (`undefined` in the source).
   */
  function KindOfLetter(letter: string): (k: Option<SectionKind>)
    ensures k.Some? <==> letter == "l" || letter == "r" || letter == "b"
    ensures k.Some? ==> k.value.Letter() == letter
  {
    if letter == "l" then Some(Lecture)
    else if letter == "r" then Some(Recitation)
    else if letter == "b" then Some(Lab)
    else None
  }

  /** Looking up a kind's own letter gives that kind back. */
  lemma KindOfLetterInverse(k: SectionKind)
    ensures KindOfLetter(k.Letter()) == Some(k)
  {
  }

  /** The letter map applied to every raw letter, position by position. */
  function KindsOfLetters(letters: seq<string>): (ks: seq<Option<SectionKind>>)
    ensures |ks| == |letters|
    ensures forall i :: 0 <= i < |ks| ==> ks[i] == KindOfLetter(letters[i])
  {
    if letters == [] then [] else [KindOfLetter(letters[0])] + KindsOfLetters(letters[1..])
  }

  /** All raw letters are one of "l", "r", "b". */
  predicate ValidLetters(letters: seq<string>) {
    forall i :: 0 <= i < |letters| ==> KindOfLetter(letters[i]).Some?
  }

  datatype Timeslot = Timeslot(startSlot: int, numSlots: int) {
    /** The raw pair this timeslot was built from. */
    function Raw(): RawTimeslot {
      RawTimeslot(startSlot, numSlots)
    }
  }

  /** The Timeslot constructor: destructures a raw pair into its two fields. */
  function NewTimeslot(raw: RawTimeslot): (t: Timeslot)
    ensures t.Raw() == raw
  {
    Timeslot(raw.startSlot, raw.numSlots)
  }

  /** A Timeslot per raw pair, in order. */
  function NewTimeslots(raws: seq<RawTimeslot>): (ts: seq<Timeslot>)
    ensures |ts| == |raws|
    ensures forall j :: 0 <= j < |ts| ==>
      ts[j].startSlot == raws[j].startSlot && ts[j].numSlots == raws[j].numSlots
  {
    if raws == [] then [] else [NewTimeslot(raws[0])] + NewTimeslots(raws[1..])
  }

  /** The raw pairs of a sequence of timeslots. */
  function RawSlots(ts: seq<Timeslot>): (raws: seq<RawTimeslot>)
    ensures |raws| == |ts|
  {
    if ts == [] then [] else [ts[0].Raw()] + RawSlots(ts[1..])
  }

  /** Building the timeslots and reading their raw pairs back is the identity. */
  lemma {:induction false} NewTimeslotsRoundTrip(raws: seq<RawTimeslot>)
    ensures RawSlots(NewTimeslots(raws)) == raws
  {
    if raws != [] {
      var ts := NewTimeslots(raws);
      assert ts[1..] == NewTimeslots(raws[1..]);
      NewTimeslotsRoundTrip(raws[1..]);
    }
  }

  /**
   * A section: its class (a back-reference in the source), its kind, its
   * timeslots and its room.
   */
  datatype Section = Section(cls: Class, kind: SectionKind, timeslots: seq<Timeslot>, room: string) {
    /** The raw section this section was built from. */
    function Raw(): RawSection {
      RawSection(RawSlots(timeslots), room)
    }
  }

  /** The Section constructor. */
  function NewSection(cls: Class, kind: SectionKind, raw: RawSection): (sec: Section)
    ensures sec.cls == cls && sec.kind == kind && sec.Raw() == raw
  {
    NewTimeslotsRoundTrip(raw.slots);
    Section(cls, kind, NewTimeslots(raw.slots), raw.room)
  }

  /** A Section of the given class and kind per raw section, in order. */
  function NewSections(cls: Class, kind: SectionKind, raws: seq<RawSection>): (secs: seq<Section>)
    ensures |secs| == |raws|
    ensures forall i :: 0 <= i < |secs| ==>
      secs[i].cls == cls && secs[i].kind == kind && secs[i].Raw() == raws[i]
  {
    if raws == [] then [] else [NewSection(cls, kind, raws[0])] + NewSections(cls, kind, raws[1..])
  }

  /** The raw sections of a sequence of sections. */
  function RawSections(secs: seq<Section>): (raws: seq<RawSection>)
    ensures |raws| == |secs|
  {
    if secs == [] then [] else [secs[0].Raw()] + RawSections(secs[1..])
  }

  /** Workload hours with the flag telling that they fell back to the units. */
  datatype HoursInfo = HoursInfo(hours: real, setToUnits: bool)

  /** The read-only wrapper of a raw catalog record. */
  datatype Class = Class(rawClass: RawClass) {

    /** The `number` getter as written: it returns the name field `n`. */
    function Number(): string {
      rawClass.n
    }

    /** The class number, the field `no` (what the `number` getter evidently means). */
    function ClassNumber(): string {
      rawClass.no
    }

    /** Total credit units. */
    function Units(): real {
      rawClass.u1 + rawClass.u2 + rawClass.u3
    }

    /**
     * Workload hours: the evaluation hours when they are non-zero, and
     * otherwise the units, flagged as a fallback.
     */
    function Hours(): (r: HoursInfo)
      ensures r.setToUnits <==> rawClass.h == 0.0
      ensures r.setToUnits ==> r.hours == Units()
      ensures !r.setToUnits ==> r.hours == rawClass.h && r.hours != 0.0
    {
      var setToUnits := rawClass.h == 0.0;
      HoursInfo(if setToUnits then Units() else rawClass.h, setToUnits)
    }

    /** The section kinds named by the raw letters, position by position. */
    function SectionKinds(): (ks: seq<Option<SectionKind>>)
      ensures |ks| == |rawClass.s|
      ensures forall i :: 0 <= i < |ks| ==> ks[i] == KindOfLetter(rawClass.s[i])
      ensures ValidLetters(rawClass.s) ==>
        forall i :: 0 <= i < |ks| ==> ks[i].Some? && ks[i].value.Letter() == rawClass.s[i]
    {
      KindsOfLetters(rawClass.s)
    }

    /** The raw section list of a kind: the record field named by the kind's letter. */
    function RawSectionsOf(kind: SectionKind): seq<RawSection> {
      match kind
      case Lecture => rawClass.l
      case Recitation => rawClass.r
      case Lab => rawClass.b
    }

    /** One Section per raw section of the kind, in source order. */
    function SectionsOfKind(kind: SectionKind): (secs: seq<Section>)
      ensures |secs| == |RawSectionsOf(kind)|
      ensures forall i :: 0 <= i < |secs| ==>
        secs[i].cls == this && secs[i].kind == kind && secs[i].room == RawSectionsOf(kind)[i].room
      ensures forall i :: 0 <= i < |secs| ==>
        |secs[i].timeslots| == |RawSectionsOf(kind)[i].slots|
      ensures forall i, j :: 0 <= i < |secs| && 0 <= j < |secs[i].timeslots| ==>
        secs[i].timeslots[j].Raw() == RawSectionsOf(kind)[i].slots[j]
    {
      var secs := NewSections(this, kind, RawSectionsOf(kind));
      forall i | 0 <= i < |secs|
        ensures |secs[i].timeslots| == |RawSectionsOf(kind)[i].slots|
        ensures forall j :: 0 <= j < |secs[i].timeslots| ==>
          secs[i].timeslots[j].Raw() == RawSectionsOf(kind)[i].slots[j]
      {
        RawSlotsAt(secs[i].timeslots);
      }
      secs
    }

    /**
     * The kind-to-sections map built from a sequence of looked-up kinds, or
     * None when one of them is not a kind (the source throws a TypeError
     * when it indexes the record with `undefined`).
     */
    function SectionMap(kinds: seq<Option<SectionKind>>): (m: Option<map<SectionKind, seq<Section>>>)
      ensures m.Some? <==> forall i :: 0 <= i < |kinds| ==> kinds[i].Some?
      ensures m.Some? ==> forall k :: k in m.value <==> Some(k) in kinds
      ensures m.Some? ==> forall k :: k in m.value ==> m.value[k] == SectionsOfKind(k)
    {
      if kinds == [] then Some(map[])
      else
        var rest := SectionMap(kinds[1..]);
        assert forall k :: Some(k) in kinds <==> Some(k) == kinds[0] || Some(k) in kinds[1..];
        match kinds[0]
        case None => None
        case Some(k) =>
          if rest.None? then
            assert !(forall i :: 0 <= i < |kinds[1..]| ==> kinds[1..][i].Some?);
            None
          else
            Some(rest.value[k := SectionsOfKind(k)])
    }

    /** The `sections` getter: the map from each declared kind to its sections. */
    function Sections(): (m: Option<map<SectionKind, seq<Section>>>)
      ensures m.Some? <==> ValidLetters(rawClass.s)
      ensures m.Some? ==> forall k :: k in m.value <==> Some(k) in SectionKinds()
      ensures m.Some? ==> forall k :: k in m.value ==> m.value[k] == SectionsOfKind(k)
    {
      SectionMap(SectionKinds())
    }
  }

  /** Position j of the raw pairs of a timeslot sequence is the raw pair of timeslot j. */
  lemma {:induction false} RawSlotsAt(ts: seq<Timeslot>)
    ensures forall j :: 0 <= j < |ts| ==> RawSlots(ts)[j] == ts[j].Raw()
  {
    if ts != [] {
      RawSlotsAt(ts[1..]);
    }
  }

  /** Reading the raw sections back from SectionsOfKind gives the record's raw list. */
  lemma {:induction false} SectionsOfKindRoundTrip(c: Class, kind: SectionKind)
    ensures RawSections(c.SectionsOfKind(kind)) == c.RawSectionsOf(kind)
  {
    RawSectionsOfNew(c, kind, c.RawSectionsOf(kind));
  }

  lemma {:induction false} RawSectionsOfNew(c: Class, kind: SectionKind, raws: seq<RawSection>)
    ensures RawSections(NewSections(c, kind, raws)) == raws
  {
    if raws != [] {
      var secs := NewSections(c, kind, raws);
      assert secs[1..] == NewSections(c, kind, raws[1..]);
      RawSectionsOfNew(c, kind, raws[1..]);
    }
  }

  /**
   * Every section in the `sections` map belongs to this class and has a
   * kind that the class declares.
   */
  lemma SectionKindsAreDeclared(c: Class, k: SectionKind, i: nat)
    requires c.Sections().Some? && k in c.Sections().value && i < |c.Sections().value[k]|
    ensures c.Sections().value[k][i].cls == c
    ensures c.Sections().value[k][i].kind == k
    ensures Some(c.Sections().value[k][i].kind) in c.SectionKinds()
  {
  }

  /** Units are non-negative when the three unit components are. */
  lemma UnitsNonNegative(c: Class)
    requires c.rawClass.u1 >= 0.0 && c.rawClass.u2 >= 0.0 && c.rawClass.u3 >= 0.0
    ensures c.Units() >= 0.0
  {
  }

  /** Hours are non-negative when units and evaluation hours are. */
  lemma HoursNonNegative(c: Class)
    requires c.rawClass.u1 >= 0.0 && c.rawClass.u2 >= 0.0 && c.rawClass.u3 >= 0.0
    requires c.rawClass.h >= 0.0
    ensures c.Hours().hours >= 0.0
  {
  }

  /** 6.036 with units 5-0-7 and no evaluation hours: 12 units, hours fall back to 12. */
  lemma MachineLearningExample(rc: RawClass)
    requires rc.u1 == 5.0 && rc.u2 == 0.0 && rc.u3 == 7.0 && rc.h == 0.0
    ensures Class(rc).Units() == 12.0
    ensures Class(rc).Hours() == HoursInfo(12.0, true)
  {
  }

  /**
   * As written, the `number` getter returns the class name: for 6.036 it
   * gives "Introduction to Machine Learning" rather than "6.036".
   */
  lemma NumberReturnsName(rc: RawClass)
    requires rc.no == "6.036" && rc.n == "Introduction to Machine Learning"
    ensures Class(rc).Number() == "Introduction to Machine Learning"
    ensures Class(rc).Number() != rc.no
    ensures Class(rc).ClassNumber() == "6.036"
  {
  }
}
