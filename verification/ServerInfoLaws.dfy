/** Laws of ServerInfo and CommandLineOptions. */
module ServerInfoLaws {
  import opened GoTypes
  import opened Varint
  import opened Wire
  import opened Messages
  import opened ServerInfos

  /** a after the first i fields of b have been merged into it. */
  function Partial(a: OptionsFields, b: OptionsFields, i: nat): OptionsFields {
    var c := MergeOptions(a, b);
    OptionsFields(
      if i > 0 then c.baseId else a.baseId,
      if i > 1 then c.concurrency else a.concurrency,
      if i > 2 then c.configPath else a.configPath,
      if i > 3 then c.configYaml else a.configYaml,
      if i > 4 then c.allowUnknownStaticFields else a.allowUnknownStaticFields,
      if i > 5 then c.adminAddressPath else a.adminAddressPath,
      if i > 6 then c.localAddressIpVersion else a.localAddressIpVersion,
      if i > 7 then c.logLevel else a.logLevel,
      if i > 8 then c.componentLogLevel else a.componentLogLevel,
      if i > 9 then c.logFormat else a.logFormat,
      if i > 10 then c.logPath else a.logPath,
      if i > 11 then c.serviceCluster else a.serviceCluster,
      if i > 12 then c.serviceNode else a.serviceNode,
      if i > 13 then c.serviceZone else a.serviceZone,
      if i > 14 then c.fileFlushInterval else a.fileFlushInterval,
      if i > 15 then c.drainTime else a.drainTime,
      if i > 16 then c.parentShutdownTime else a.parentShutdownTime,
      if i > 17 then c.mode else a.mode,
      if i > 18 then c.maxStats else a.maxStats,
      if i > 19 then c.maxObjNameLen else a.maxObjNameLen,
      if i > 20 then c.disableHotRestart else a.disableHotRestart,
      if i > 21 then c.enableMutexTracing else a.enableMutexTracing,
      if i > 22 then c.restartEpoch else a.restartEpoch,
      if i > 23 then c.cpusetThreads else a.cpusetThreads,
      if i > 24 then c.rejectUnknownDynamicFields else a.rejectUnknownDynamicFields,
      if i > 25 then c.logFormatEscaped else a.logFormatEscaped,
      if i > 26 then c.disabledExtensions else a.disabledExtensions)
  }

  /** Field i takes the decoder from the state before it to the state after it. */
  ghost predicate FieldLaw(a: OptionsFields, b: OptionsFields, i: nat)
    requires i < |OptionsLayout(b)|
  {
    && Advances(OptionsStep, Partial(a, b, i), OptionsLayout(b)[i], Partial(a, b, i + 1))
    && Numbered(OptionsLayout(b)[i], NumberAt(i))
  }

  lemma Field1(a: OptionsFields, b: OptionsFields)
    ensures FieldLaw(a, b, 0)
  {
    hide EncodeRecord, Absorb;
  }

  lemma Field2(a: OptionsFields, b: OptionsFields)
    ensures FieldLaw(a, b, 1)
  {
    hide EncodeRecord, Absorb, Uint32Of;
    Uint32Survives(b.concurrency);
  }

  lemma Field3(a: OptionsFields, b: OptionsFields)
    ensures FieldLaw(a, b, 2)
  {
    hide EncodeRecord, Absorb;
  }

  lemma Field4(a: OptionsFields, b: OptionsFields)
    ensures FieldLaw(a, b, 3)
  {
    hide EncodeRecord, Absorb;
  }

  lemma Field5(a: OptionsFields, b: OptionsFields)
    ensures FieldLaw(a, b, 4)
  {
    hide EncodeRecord, Absorb;
  }

  lemma Field6(a: OptionsFields, b: OptionsFields)
    ensures FieldLaw(a, b, 5)
  {
    hide EncodeRecord, Absorb;
  }

  lemma Field7(a: OptionsFields, b: OptionsFields)
    ensures FieldLaw(a, b, 6)
  {
    hide EncodeRecord, Absorb, Int32Of, Uint64Of;
    Int32Survives(b.localAddressIpVersion);
  }

  lemma Field8(a: OptionsFields, b: OptionsFields)
    ensures FieldLaw(a, b, 7)
  {
    hide EncodeRecord, Absorb;
  }

  lemma Field9(a: OptionsFields, b: OptionsFields)
    ensures FieldLaw(a, b, 8)
  {
    hide EncodeRecord, Absorb;
  }

  lemma Field10(a: OptionsFields, b: OptionsFields)
    ensures FieldLaw(a, b, 9)
  {
    hide EncodeRecord, Absorb;
  }

  lemma Field11(a: OptionsFields, b: OptionsFields)
    ensures FieldLaw(a, b, 10)
  {
    hide EncodeRecord, Absorb;
  }

  lemma Field13(a: OptionsFields, b: OptionsFields)
    ensures FieldLaw(a, b, 11)
  {
    hide EncodeRecord, Absorb;
  }

  lemma Field14(a: OptionsFields, b: OptionsFields)
    ensures FieldLaw(a, b, 12)
  {
    hide EncodeRecord, Absorb;
  }

  lemma Field15(a: OptionsFields, b: OptionsFields)
    ensures FieldLaw(a, b, 13)
  {
    hide EncodeRecord, Absorb;
  }

  lemma Field16(a: OptionsFields, b: OptionsFields)
    ensures FieldLaw(a, b, 14)
  {
    hide EncodeRecord, Absorb;
  }

  lemma Field17(a: OptionsFields, b: OptionsFields)
    ensures FieldLaw(a, b, 15)
  {
    hide EncodeRecord, Absorb;
  }

  lemma Field18(a: OptionsFields, b: OptionsFields)
    ensures FieldLaw(a, b, 16)
  {
    hide EncodeRecord, Absorb;
  }

  lemma Field19(a: OptionsFields, b: OptionsFields)
    ensures FieldLaw(a, b, 17)
  {
    hide EncodeRecord, Absorb, Int32Of, Uint64Of;
    Int32Survives(b.mode);
  }

  lemma Field20(a: OptionsFields, b: OptionsFields)
    ensures FieldLaw(a, b, 18)
  {
    hide EncodeRecord, Absorb;
  }

  lemma Field21(a: OptionsFields, b: OptionsFields)
    ensures FieldLaw(a, b, 19)
  {
    hide EncodeRecord, Absorb;
  }

  lemma Field22(a: OptionsFields, b: OptionsFields)
    ensures FieldLaw(a, b, 20)
  {
    hide EncodeRecord, Absorb;
  }

  lemma Field23(a: OptionsFields, b: OptionsFields)
    ensures FieldLaw(a, b, 21)
  {
    hide EncodeRecord, Absorb;
  }

  lemma Field24(a: OptionsFields, b: OptionsFields)
    ensures FieldLaw(a, b, 22)
  {
    hide EncodeRecord, Absorb, Uint32Of;
    Uint32Survives(b.restartEpoch);
  }

  lemma Field25(a: OptionsFields, b: OptionsFields)
    ensures FieldLaw(a, b, 23)
  {
    hide EncodeRecord, Absorb;
  }

  lemma Field26(a: OptionsFields, b: OptionsFields)
    ensures FieldLaw(a, b, 24)
  {
    hide EncodeRecord, Absorb;
  }

  lemma Field27(a: OptionsFields, b: OptionsFields)
    ensures FieldLaw(a, b, 25)
  {
    hide EncodeRecord, Absorb;
  }

  lemma AbsorbExtensions(k: OptionsFields, xs: seq<seq<byte>>)
    ensures Absorb(OptionsStep, k, RepeatedField(28, xs)) ==
            Some(k.(disabledExtensions := k.disabledExtensions + xs))
  {
    hide Absorb, OptionsStep, RepeatedField;
    var put := (ys: seq<seq<byte>>) => k.(disabledExtensions := ys);
    var same := (x: seq<byte>) => x;
    forall x, ys | x in xs ensures OptionsStep(put(ys), Len(28, same(x))) == Updated(put(ys + [same(x)])) {
      DecodeExtension(put(ys), x);
    }
    MapFixed(same, xs);
    AbsorbRepeated(OptionsStep, put, k.disabledExtensions, 28, xs, same, same);
  }

  lemma DecodeExtension(k: OptionsFields, p: seq<byte>)
    ensures OptionsStep(k, Len(28, p)) == Updated(k.(disabledExtensions := k.disabledExtensions + [p]))
  {
  }

  lemma Field28(a: OptionsFields, b: OptionsFields)
    ensures FieldLaw(a, b, 26)
  {
    hide EncodeRecord, Absorb, OptionsStep, RepeatedField;
    AbsorbExtensions(Partial(a, b, 26), b.disabledExtensions);
    RepeatedNumbers(28, b.disabledExtensions);
  }

  lemma AllFields(a: OptionsFields, b: OptionsFields, i: nat)
    requires i < |OptionsLayout(b)|
    ensures FieldLaw(a, b, i)
  {
    hide FieldLaw, OptionsLayout;
    OptionsLayoutAt(b);
    if i == 0 { Field1(a, b); }
    if i == 1 { Field2(a, b); }
    if i == 2 { Field3(a, b); }
    if i == 3 { Field4(a, b); }
    if i == 4 { Field5(a, b); }
    if i == 5 { Field6(a, b); }
    if i == 6 { Field7(a, b); }
    if i == 7 { Field8(a, b); }
    if i == 8 { Field9(a, b); }
    if i == 9 { Field10(a, b); }
    if i == 10 { Field11(a, b); }
    if i == 11 { Field13(a, b); }
    if i == 12 { Field14(a, b); }
    if i == 13 { Field15(a, b); }
    if i == 14 { Field16(a, b); }
    if i == 15 { Field17(a, b); }
    if i == 16 { Field18(a, b); }
    if i == 17 { Field19(a, b); }
    if i == 18 { Field20(a, b); }
    if i == 19 { Field21(a, b); }
    if i == 20 { Field22(a, b); }
    if i == 21 { Field23(a, b); }
    if i == 22 { Field24(a, b); }
    if i == 23 { Field25(a, b); }
    if i == 24 { Field26(a, b); }
    if i == 25 { Field27(a, b); }
    if i == 26 { Field28(a, b); }
  }

  lemma OptionsAbsorb(a: OptionsFields, b: OptionsFields)
    ensures Absorb(OptionsStep, a, Flatten(OptionsLayout(b))) == Some(MergeOptions(a, b))
  {
    hide Advances, Absorb, OptionsStep, Flatten, OptionsLayout, Partial, MergeOptions, Numbered;
    var fs := OptionsLayout(b);
    var ks := seq(|fs| + 1, i requires 0 <= i => Partial(a, b, i));
    forall i | 0 <= i < |fs| ensures Advances(OptionsStep, ks[i], fs[i], ks[i + 1]) {
      AllFields(a, b, i);
    }
    AbsorbFields(OptionsStep, fs, ks);
    PartialEnds(a, b);
  }

  lemma PartialEnds(a: OptionsFields, b: OptionsFields)
    ensures |OptionsLayout(b)| == 27
    ensures Partial(a, b, 0) == a && Partial(a, b, 27) == MergeOptions(a, b)
  {
  }

  lemma OptionsDecode(acc: CommandLineOptions, m: CommandLineOptions)
    requires OptionsOk(Some(m)) && |EncodeOptions(m)| <= MAX_INT
    ensures DecodeInto(OptionsStep, acc, EncodeOptions(m)) == Some(MergeMsg(MergeOptions, acc, m))
  {
    hide EncodeFields, UnknownTo, DecodeInto, Flatten, Absorb, MergeOptions, OptionsLayout;
    OptionsAbsorb(acc.fields, m.fields);
    OptionsNoGroups(m.fields);
    DecodeEncoded(OptionsStep, acc, OptionsLayout(m.fields), m.unknownFields, MergeOptions(acc.fields, m.fields));
  }

  lemma OptionsNoGroups(k: OptionsFields)
    ensures NoGroups(OptionsLayout(k))
  {
    hide OptionsStep, OptionsLayout, Partial, Advances;
    forall i | 0 <= i < |OptionsLayout(k)| ensures Numbered(OptionsLayout(k)[i], NumberAt(i)) {
      AllFields(NO_OPTIONS, k, i);
    }
  }

  lemma MergeIntoNone(m: CommandLineOptions)
    ensures MergeMsg(MergeOptions, Msg(NO_OPTIONS, []), m) == m
  {
    hide MergeOpaque;
    OpaqueFromEmpty(m.fields.fileFlushInterval);
    OpaqueFromEmpty(m.fields.drainTime);
    OpaqueFromEmpty(m.fields.parentShutdownTime);
    assert [] + m.fields.disabledExtensions == m.fields.disabledExtensions;
    assert [] + m.unknownFields == m.unknownFields;
  }

  /** Every CommandLineOptions reads back exactly as it was written: all 27 fields, in the right places. */
  lemma OptionsRoundTrip(m: CommandLineOptions)
    requires OptionsOk(Some(m)) && |EncodeOptions(m)| <= MAX_INT
    ensures DecodeInto(OptionsStep, Msg(NO_OPTIONS, []), EncodeOptions(m)) == Some(m)
  {
    hide DecodeInto, MergeMsg, OptionsOk, EncodeOptions;
    OptionsDecode(Msg(NO_OPTIONS, []), m);
    MergeIntoNone(m);
  }

  /** Encode(a) followed by encode(b) reads back as a with b merged into it. */
  lemma OptionsConcatenation(a: CommandLineOptions, b: CommandLineOptions)
    requires OptionsOk(Some(a)) && |EncodeOptions(a)| <= MAX_INT
    requires OptionsOk(Some(b)) && |EncodeOptions(b)| <= MAX_INT
    ensures DecodeInto(OptionsStep, Msg(NO_OPTIONS, []), EncodeOptions(a) + EncodeOptions(b)) ==
            Some(MergeMsg(MergeOptions, a, b))
  {
    hide DecodeInto, MergeMsg, OptionsOk, EncodeOptions;
    OptionsRoundTrip(a);
    OptionsDecode(a, b);
    DecodeConcat(OptionsStep, Msg(NO_OPTIONS, []), EncodeOptions(a), EncodeOptions(b));
  }

  /* ----- field numbers ----- */

  /** The number of the field at position i: 12 is skipped. */
  function NumberAt(i: nat): nat {
    if i < 11 then i + 1 else i + 2
  }

  /**
   * Along the output the field numbers never decrease; and a key takes two bytes
   * exactly for the numbers from 16 on.
   */
  lemma OptionsNumbersSorted(k: OptionsFields)
    ensures NumbersSorted(Flatten(OptionsLayout(k)))
    ensures forall r <- Flatten(OptionsLayout(k)) :: |Key(r.num, WireType(r))| == (if r.num >= 16 then 2 else 1)
  {
    hide Flatten, OptionsLayout, VarintBytes, OptionsStep, Partial, Advances;
    var fs := OptionsLayout(k);
    forall i | 0 <= i < |fs| ensures Numbered(fs[i], NumberAt(i)) {
      AllFields(NO_OPTIONS, k, i);
    }
    SortedFrom(fs, NumberAt, 0);
    assert fs[0..] == fs;
    forall r <- Flatten(fs) ensures |Key(r.num, WireType(r))| == (if r.num >= 16 then 2 else 1) {
      FlattenMember(fs, r);
      var i :| 0 <= i < |fs| && r in fs[i];
      assert |fs| == 27 by { PartialEnds(k, k); }
      KeySize(r.num, WireType(r));
    }
  }

  lemma KeySize(num: FieldNumber, wireType: nat)
    requires num < 2048 && wireType < 8
    ensures |Key(num, wireType)| == (if num >= 16 then 2 else 1)
  {
    var v := 8 * num + wireType;
    assert v >= 0x80 ==> |VarintBytes(v / 0x80)| == 1;
  }

  /* ----- ServerInfo ----- */

  lemma ServerInfoDecodes(acc: ServerInfo, m: Option<ServerInfo>)
    requires ServerInfoOk(m) && |EncodeServerInfo(m)| <= MAX_INT
    ensures DecodeInto(ServerInfoStep, acc, EncodeServerInfo(m)) ==
            Some(MergeMsg(MergeServerInfo, acc, m.GetOr(Msg(NO_SERVER_INFO, []))))
  {
    hide EncodeRecords, EncodeFields, UnknownTo, DecodeInto, Flatten, Absorb, Int32Of, Uint64Of, OptionsStep,
      MergeOptions, OptionsLayout;
    if m.None? {
      DecodeNothing(ServerInfoStep, acc);
    } else {
      var fs, b, k0 := ServerInfoLayout(m.value.fields), m.value.fields, acc.fields;
      var k1 := k0.(version := LastNonDefault([], k0.version, b.version));
      var k2 := k1.(state := LastNonDefault(0, k0.state, b.state));
      Int32Survives(b.state);
      var k3 := k2.(uptimeCurrentEpoch := MergeOpaque(k0.uptimeCurrentEpoch, b.uptimeCurrentEpoch));
      var k4 := k3.(uptimeAllEpochs := MergeOpaque(k0.uptimeAllEpochs, b.uptimeAllEpochs));
      var k5 := k4.(hotRestartVersion := LastNonDefault([], k0.hotRestartVersion, b.hotRestartVersion));
      var k6 := k5.(commandLineOptions :=
        MergeOptional(MergeOptions, NO_OPTIONS, k0.commandLineOptions, b.commandLineOptions));
      if b.commandLineOptions.Some? {
        FieldFits(fs, m.value.unknownFields, 5);
        OptionalPayloadFits(6, EncodeOptions(b.commandLineOptions.value));
        OptionsDecode(k0.commandLineOptions.GetOr(Msg(NO_OPTIONS, [])), b.commandLineOptions.value);
      }
      AbsorbFields(ServerInfoStep, fs, [k0, k1, k2, k3, k4, k5, k6]);
      DecodeEncoded(ServerInfoStep, acc, fs, m.value.unknownFields, k6);
    }
  }

  /** Every ServerInfo reads back exactly as it was written. */
  lemma ServerInfoRoundTrip(m: ServerInfo)
    requires ServerInfoOk(Some(m)) && |EncodeServerInfo(Some(m))| <= MAX_INT
    ensures DecodeInto(ServerInfoStep, Msg(NO_SERVER_INFO, []), EncodeServerInfo(Some(m))) == Some(m)
  {
    hide DecodeInto, EncodeServerInfo, ServerInfoOk, MergeOptions, MergeOpaque;
    ServerInfoDecodes(Msg(NO_SERVER_INFO, []), Some(m));
    OpaqueFromEmpty(m.fields.uptimeCurrentEpoch);
    OpaqueFromEmpty(m.fields.uptimeAllEpochs);
    if m.fields.commandLineOptions.Some? {
      MergeIntoNone(m.fields.commandLineOptions.value);
    }
    assert [] + m.unknownFields == m.unknownFields;
  }
}
