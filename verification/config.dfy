/**
  The tuning constants and lookup tables of the bridge's configuration module
  (`OmronVTInterfaceModule/ovtimconfig.py`). Times are seconds on the same
  abstract clock the other modules take as a parameter.
 */
module OvtimConfig {
  import opened Text

  /** Minimum time between two accepted barcodes from one scanner. */
  const ScannerTimeLimit: real := 0.1

  /** Maximum age of the current barcode for it to be forwarded. */
  const BarcodeOutputTimeLimit: real := 30.0

  /** Pause after each attempt to write to the inspection machine. */
  const BarcodeSleepTime: real := 10.0

  /** The process-wide current barcode before any scan is accepted. */
  const InitialBarcode: string := ""
  const InitialBarcodeTimestamp: real := 0.0

  /** The per-side profile keys: ten for the bottom scanner (`bs`), the same ten for the top (`ts`). */
  const PossibleIniValues: seq<string> := [
    "bsmodel", "bsname", "bsmac", "bscommtype", "bsip", "bsport", "bsbaud", "bsbytesize", "bsstopbit", "bsparity",
    "tsmodel", "tsname", "tsmac", "tscommtype", "tsip", "tsport", "tsbaud", "tsbytesize", "tsstopbit", "tsparity"
  ]

  /** Scanner models the configuration recognises; anything else is shown as "Other Scanner". */
  const PossibleModelValues: seq<string> := [
    "microhawk mv", "microhawk mv-20", "microhawk mv-30", "microhawk mv-40", "microhawk mv-45",
    "microhawk id-20", "microhawk id-30", "microhawk id-40", "microhawk id-45",
    "id-45", "f420", "f420-f", "f430", "f430-f"
  ]

  /** The two scanner roles, as key prefixes. */
  const Bottom: string := "bs"
  const Top: string := "ts"

  /** The ten per-side field names, without their role prefix. */
  const SideFields: seq<string> := ["model", "name", "mac", "commtype", "ip", "port", "baud", "bytesize", "stopbit", "parity"]

  /** The first ten keys are the side fields under the bottom prefix. */
  lemma BottomKeys()
    ensures forall k :: 0 <= k < |SideFields| ==> PossibleIniValues[k] == Bottom + SideFields[k]
  {
  }

  /** The last ten keys are the side fields under the top prefix. */
  lemma TopKeys()
    ensures forall k :: 0 <= k < |SideFields| ==> PossibleIniValues[k + |SideFields|] == Top + SideFields[k]
  {
  }

  /** The key list is the ten side fields under the bottom prefix followed by
      the same ten under the top prefix. */
  lemma IniValuesMirrored()
    ensures |PossibleIniValues| == 2 * |SideFields|
    ensures forall k :: 0 <= k < |SideFields| ==>
      PossibleIniValues[k] == Bottom + SideFields[k] && PossibleIniValues[k + |SideFields|] == Top + SideFields[k]
  {
    BottomKeys();
    TopKeys();
  }

  /** No key is repeated: the bottom and top keys differ in their first
      letter, and the side fields are distinct. */
  lemma IniValuesDistinct()
    ensures forall j, k :: 0 <= j < k < |PossibleIniValues| ==> PossibleIniValues[j] != PossibleIniValues[k]
  {
  }

  /** The two enabled flags of a stored profile are not among the listed keys. */
  lemma FlagKeysNotListed()
    ensures forall k :: 0 <= k < |PossibleIniValues| ==> PossibleIniValues[k] != "bsenabled" && PossibleIniValues[k] != "tsenabled"
  {
  }

  /** Every model name is already lower case, so a lower-cased configured model can equal it. */
  lemma ModelValuesLowercase()
    ensures forall k :: 0 <= k < |PossibleModelValues| ==> Lower(PossibleModelValues[k]) == PossibleModelValues[k]
  {
    forall k | 0 <= k < |PossibleModelValues|
      ensures Lower(PossibleModelValues[k]) == PossibleModelValues[k]
    {
      assert IsLower(PossibleModelValues[k]);
    }
  }
}
