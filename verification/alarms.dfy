/** Alarm decoding of `ComfoConnect._alarm_callback`
    (aiocomfoconnect/comfoconnect.py): the firmware version picks the error
    catalogue, and each reported error bit is looked up in it. The bit
    positions come from `bytearray_to_bits`, which is not part of this
    model; they are an input here. */
module Alarms {
  import opened Results
  import Const
  import EventBus

  /** The last firmware version (1.4.0) whose error numbering is the older
      one. */
  const FIRMWARE_1_4_0: int := 3222278144

  datatype Catalogue = Errors140 | Errors

  /** `ERRORS_140` up to and including version 1.4.0, `ERRORS` after it. */
  function CatalogueFor(swProgramVersion: int): (c: Catalogue)
    ensures c == Errors140 <==> swProgramVersion <= FIRMWARE_1_4_0
  {
    if swProgramVersion <= FIRMWARE_1_4_0 then Errors140 else Errors
  }

  function Lookup(c: Catalogue, code: int): Option<string>
  {
    if c == Errors140 then Const.Errors140(code) else Const.Errors(code)
  }

  /** `{bit: error_messages[bit] for bit in bits}`: KeyError at the first
      bit the catalogue has no message for. */
  function Messages(c: Catalogue, bits: seq<int>): (r: Result<map<int, string>, EventBus.KeyError>)
    ensures r.Success? <==> forall i :: 0 <= i < |bits| ==> Lookup(c, bits[i]).Some?
    ensures r.Success? ==> r.value.Keys == set i | 0 <= i < |bits| :: bits[i]
    ensures r.Success? ==> forall b :: b in r.value ==> Lookup(c, b) == Some(r.value[b])
  {
    if |bits| == 0 then Success(map[])
    else
      match Lookup(c, bits[0])
      case None => Failure(EventBus.KeyError)
      case Some(msg) =>
        var rest := Messages(c, bits[1..]);
        assert forall i :: 1 <= i < |bits| ==> bits[i] == bits[1..][i - 1];
        assert (set i | 0 <= i < |bits| :: bits[i]) == (set i | 0 <= i < |bits[1..]| :: bits[1..][i]) + {bits[0]};
        if rest.Failure? then Failure(EventBus.KeyError)
        else Success(rest.value[bits[0] := msg])
  }

  /** What `_alarm_callback` does with one alarm notification. */
  datatype AlarmOutcome =
    | Ignored
    | Reported(nodeId: int, errors: map<int, string>)
    | Raised(error: EventBus.KeyError)

  /** `_alarm_callback(node_id, alarm)`: nothing without a user alarm
      callback; otherwise the user is called with the node id and the
      messages of the reported bits. */
  function AlarmCallback(hasUserCallback: bool, nodeId: int, swProgramVersion: int, bits: seq<int>): (r: AlarmOutcome)
    ensures !hasUserCallback <==> r.Ignored?
    ensures r.Raised? <==> hasUserCallback && exists i :: 0 <= i < |bits| && Lookup(CatalogueFor(swProgramVersion), bits[i]).None?
    ensures r.Reported? ==> r.nodeId == nodeId && r.errors.Keys == set i | 0 <= i < |bits| :: bits[i]
    ensures r.Reported? ==> forall b :: b in r.errors ==> Lookup(CatalogueFor(swProgramVersion), b) == Some(r.errors[b])
  {
    if !hasUserCallback then Ignored
    else
      match Messages(CatalogueFor(swProgramVersion), bits)
      case Success(errors) => Reported(nodeId, errors)
      case Failure(e) => Raised(e)
  }

  /** Errors of the common base (codes 21..69) read the same in both
      catalogues, so on every firmware. */
  lemma BaseErrorsIgnoreCatalogue(c1: Catalogue, c2: Catalogue, bits: seq<int>)
    requires forall i :: 0 <= i < |bits| ==> Const.ErrorsBase(bits[i]).Some?
    ensures Messages(c1, bits) == Messages(c2, bits)
  {
    BaseLookupsAgree(c1, c2, bits);
    MessagesExt(c1, c2, bits);
  }

  lemma BaseLookupsAgree(c1: Catalogue, c2: Catalogue, bits: seq<int>)
    requires forall i :: 0 <= i < |bits| ==> Const.ErrorsBase(bits[i]).Some?
    ensures forall i :: 0 <= i < |bits| ==> Lookup(c1, bits[i]) == Lookup(c2, bits[i])
  {
    forall i | 0 <= i < |bits|
      ensures Lookup(c1, bits[i]) == Lookup(c2, bits[i])
    {
      BaseLookup(c1, bits[i]);
      BaseLookup(c2, bits[i]);
    }
  }

  lemma BaseLookup(c: Catalogue, code: int)
    requires Const.ErrorsBase(code).Some?
    ensures Lookup(c, code) == Const.ErrorsBase(code)
  {
    Const.CataloguesAgreeOnBase(code);
  }

  /** Two catalogues that agree on every reported bit give the same result. */
  lemma {:induction false} MessagesExt(c1: Catalogue, c2: Catalogue, bits: seq<int>)
    requires forall i :: 0 <= i < |bits| ==> Lookup(c1, bits[i]) == Lookup(c2, bits[i])
    ensures Messages(c1, bits) == Messages(c2, bits)
  {
    if |bits| > 0 {
      assert forall i :: 0 <= i < |bits[1..]| ==> bits[1..][i] == bits[i + 1];
      MessagesExt(c1, c2, bits[1..]);
    }
  }

  /** On firmware 1.4.0 and older, bit c of 70..80 means what bit c + 4
      means on newer firmware, and bit c of 81..86 what c + 8 means. */
  lemma OlderBitsShifted(oldVersion: int, newVersion: int, code: int)
    requires oldVersion <= FIRMWARE_1_4_0 < newVersion && 70 <= code <= 86
    ensures var shifted := if code <= 80 then code + 4 else code + 8;
      && Messages(CatalogueFor(oldVersion), [code]).Success?
      && Messages(CatalogueFor(newVersion), [shifted]).Success?
      && code in Messages(CatalogueFor(oldVersion), [code]).value
      && shifted in Messages(CatalogueFor(newVersion), [shifted]).value
      && Messages(CatalogueFor(oldVersion), [code]).value[code]
         == Messages(CatalogueFor(newVersion), [shifted]).value[shifted]
  {
    var shifted := if code <= 80 then code + 4 else code + 8;
    Const.Errors140Shifted(code);
    Const.CatalogueDomains(code);
    Const.CatalogueDomains(shifted);
    assert [code][1..] == [] && [shifted][1..] == [];
  }

  /** Bits above 86 exist only on newer firmware: older firmware raises
      KeyError for them. */
  lemma NewerOnlyBits(oldVersion: int, newVersion: int, code: int)
    requires oldVersion <= FIRMWARE_1_4_0 < newVersion && 87 <= code <= 104
    ensures AlarmCallback(true, 1, oldVersion, [code]).Raised?
    ensures AlarmCallback(true, 1, newVersion, [code]).Reported?
  {
    Const.CatalogueDomains(code);
  }
}
