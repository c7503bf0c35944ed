/** One policy byte by byte: the 32 bytes the compiler emits for one rule, and what they decide. */
module PolicyLevels {
  import opened Wrappers
  import opened JsonText
  import opened JsonValue
  import opened PolicyIr
  import opened CslSyntax
  import opened PolicyRefinement
  import opened PolicyMeaning
  import opened PolicyCompiler
  import opened PolicyDecoding
  import opened PolicyCompiled
  import opened PolicyDecisions
  import H = PolicyHost

  /** `read: caller.level < 5` */
  const LEVELS: seq<PolicyRule> :=
    [PolicyRule([ToRead], Binary(Lt, Path(["caller", "level"]), Lit(LInteger(5))))]

  const LEVELS_SECTION: Bytes :=
    [0x53, 0x4C, 0x49, 0x52, 24, 0, 0, 0, 1, 0x01, 0, 0,
     0x10, 1, 5, 0, 0x6C, 0x65, 0x76, 0x65, 0x6C, 0x03, 5, 0, 0, 0, 0, 0, 0, 0, 0x22, 0xFD]

  lemma LittleFive()
    ensures LeBytes(5, 2) == [5, 0] && LeBytes(5, 8) == [5, 0, 0, 0, 0, 0, 0, 0]
    ensures LeBytes(0, 2) == [0, 0] && LeBytes(24, 4) == [24, 0, 0, 0]
  {
    assert LeBytes(0, 1) == [0];
    assert LeBytes(0, 2) == [0] + LeBytes(0, 1);
    assert LeBytes(0, 3) == [0] + LeBytes(0, 2);
    assert LeBytes(0, 4) == [0] + LeBytes(0, 3);
    assert LeBytes(0, 5) == [0] + LeBytes(0, 4);
    assert LeBytes(0, 6) == [0] + LeBytes(0, 5);
    assert LeBytes(0, 7) == [0] + LeBytes(0, 6);
    assert LeBytes(5, 2) == [5] + LeBytes(0, 1);
    assert LeBytes(5, 8) == [5] + LeBytes(0, 7);
    assert LeBytes(24, 4) == [24] + LeBytes(0, 3);
  }

  const LEVEL_TEXT: Bytes := [5, 0, 0x6C, 0x65, 0x76, 0x65, 0x6C]
  const LEVEL_LOAD: Bytes := [0x10, 1, 5, 0, 0x6C, 0x65, 0x76, 0x65, 0x6C]
  const FIVE: Bytes := [0x03, 5, 0, 0, 0, 0, 0, 0, 0]
  const LEVEL_CODE: Bytes := [0x10, 1, 5, 0, 0x6C, 0x65, 0x76, 0x65, 0x6C, 0x03, 5, 0, 0, 0, 0, 0, 0, 0, 0x22]

  lemma LevelText()
    ensures LowerText("level") == Some(LEVEL_TEXT)
  {
    LittleFive();
    KeyText("level", [0x6C, 0x65, 0x76, 0x65, 0x6C]);
    hide LeBytes, Bytes8;
    assert LeBytes(5, 2) + Bytes8("level") == LEVEL_TEXT;
  }

  lemma LevelSegments(key: seq<string>)
    requires key == ["level"]
    ensures LowerSegments(key) == Some(LEVEL_TEXT)
  {
    LevelText();
    hide LowerText;
    assert key[1..] == [];
    assert LEVEL_TEXT + [] == LEVEL_TEXT;
  }

  lemma LevelLoaded()
    ensures LowerPath(["caller", "level"]) == Some(LEVEL_LOAD)
  {
    var key := ["caller", "level"][1..];
    LevelSegments(key);
    hide LowerSegments;
    assert [0x10, 1] + LEVEL_TEXT == LEVEL_LOAD;
  }

  lemma FiveLowered(fl: Floats)
    ensures LowerLiteral(fl, LInteger(5)) == Some(FIVE)
  {
    LittleFive();
    hide LeBytes;
    assert [0x03] + [5, 0, 0, 0, 0, 0, 0, 0] == FIVE;
  }

  lemma LevelLowered(fl: Floats)
    ensures LowerExpr(fl, LEVELS[0].condition) == Some(LEVEL_CODE)
  {
    LevelLoaded();
    FiveLowered(fl);
    hide LowerPath, LowerLiteral;
    assert LEVEL_LOAD + FIVE + [0x22] == LEVEL_CODE;
  }

  const LEVEL_STREAM: Bytes := LEVEL_CODE + [0xFD]

  lemma LevelTable()
    ensures Mask([ToRead]) == 1
    ensures Streams([Entry(1, LEVEL_STREAM)]) == LEVEL_STREAM && Table([Entry(1, LEVEL_STREAM)], 0) == [1, 0, 0]
  {
    LittleFive();
    hide LeBytes;
    assert [ToRead][..0] == [];
    var entries := [Entry(1, LEVEL_STREAM)];
    assert entries[1..] == [];
    assert LEVEL_STREAM + [] == LEVEL_STREAM;
    assert [1] + [0, 0] + [] == [1, 0, 0];
  }

  /** One rule for reading, with its code. */
  lemma OneRuleBody(fl: Floats, code: Bytes)
    requires Entries(fl, LEVELS) == Some([Entry(1, code)]) && |code| <= 65535
    requires Streams([Entry(1, code)]) == code && Table([Entry(1, code)], 0) == [1, 0, 0]
    ensures LowerRules(fl, LEVELS) == Some([1, 1, 0, 0] + code)
  {
    hide Entries, Streams, Table;
    assert [1] + [1, 0, 0] + code == [1, 1, 0, 0] + code;
  }

  lemma SectionBytes()
    ensures |LEVEL_STREAM| == 20
    ensures MAGIC + [24, 0, 0, 0] + ([1, 1, 0, 0] + LEVEL_STREAM) == LEVELS_SECTION
  {
  }

  lemma HeaderBytes(fl: Floats, body: Bytes, length: Bytes)
    requires LowerRules(fl, LEVELS) == Some(body) && LeBytes(|body|, 4) == length
    ensures LowerPolicy(fl, LEVELS) == Some(MAGIC + length + body)
  {
    hide LowerRules, LeBytes;
  }

  lemma LevelsLowered(fl: Floats)
    ensures LowerPolicy(fl, LEVELS) == Some(LEVELS_SECTION)
  {
    SectionBytes();
    LevelTable();
    LevelStream(fl);
    OneRule(fl, LEVEL_STREAM);
    OneRuleBody(fl, LEVEL_STREAM);
    LittleFive();
    hide *;
    HeaderBytes(fl, [1, 1, 0, 0] + LEVEL_STREAM, [24, 0, 0, 0]);
  }

  lemma LevelStream(fl: Floats)
    ensures Stream(fl, LEVELS[0]) == Some(LEVEL_STREAM)
  {
    LevelLowered(fl);
    hide LowerExpr;
  }

  lemma OneRule(fl: Floats, code: Bytes)
    requires Stream(fl, LEVELS[0]) == Some(code) && Mask([ToRead]) == 1
    ensures Entries(fl, LEVELS) == Some([Entry(1, code)])
  {
    hide Mask, Stream;
    assert LEVELS[1..] == [];
    NoEntries(fl);
    var one := [Entry(1, code)];
    assert one + [] == one;
  }

  lemma LevelsRun(fl: Floats, caller: Value, record: Value, a: Action)
    requires a == ToRead ==> PathsReach(LEVELS[0].condition, caller, record)
    ensures Decides(H.Verdict(fl, LEVELS_SECTION, caller, record, Bit(a)), Decision(fl, LEVELS, caller, record, a))
  {
    LevelsLowered(fl);
    hide LowerPolicy, H.Verdict, Decision, PathsReach;
    assert LEVELS_SECTION + [] == LEVELS_SECTION;
    assert FirstFor(LEVELS, 0, a) == if a == ToRead then 0 else 1;
    HostDecides(fl, LEVELS, LEVELS_SECTION, [], caller, record, a);
  }

  /** These 32 bytes let a caller below level five read, and nobody do anything else. */
  lemma LevelsDecide(fl: Floats, caller: Value, record: Value, level: int, a: Action)
    requires ExactIntegers(fl) && -EXACT <= level <= EXACT
    requires caller.Object? && Bytes8("level") in caller.fields && caller.fields[Bytes8("level")] == Number(I64(level))
    ensures H.Verdict(fl, LEVELS_SECTION, caller, record, Bit(a)) == H.Done(a == ToRead && level < 5)
  {
    LevelMeans(fl, caller, record, level);
    LevelsRun(fl, caller, record, a);
    hide H.Verdict, Meaning, PathsReach, Bytes8;
    assert FirstFor(LEVELS, 0, a) == if a == ToRead then 0 else 1;
  }

  lemma LevelMeans(fl: Floats, caller: Value, record: Value, level: int)
    requires ExactIntegers(fl) && -EXACT <= level <= EXACT
    requires caller.Object? && Bytes8("level") in caller.fields && caller.fields[Bytes8("level")] == Number(I64(level))
    ensures Meaning(fl, LEVELS[0].condition, caller, record) == Some(Bool(level < 5))
    ensures PathsReach(LEVELS[0].condition, caller, record) && Depth(LEVELS[0].condition) == 2
  {
    hide Bytes8;
    IntegersCompare(fl, level, 5);
    assert ["caller", "level"][1..] == ["level"] && ["level"][1..] == [];
    var key := Bytes8("level");
    var path: seq<Bytes> := [key];
    assert Keys(["level"]) == path && path[1..] == [];
    assert At(caller, [key]) == Number(I64(level));
  }
}
