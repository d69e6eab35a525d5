/** The USB client's descriptor callbacks: the constant device and configuration descriptors,
    and the string descriptors built on request into a static buffer of 16-bit units, as
    section 9.6.7 of the USB 2.0 specification lays them out (a header unit holding bLength and
    bDescriptorType, then UTF-16 code units). Structure layouts and the TinyUSB descriptor macros
    follow TinyUSB's `tusb_types.h` and `usbd.h`. */
module UsbDescriptors {
  import opened Common

  type U16 = x: int | 0 <= x < 0x1_0000

  /** `DESC_STR_MAX`: the number of units in the static string buffer. */
  const DescStrMax: nat := 32

  /** `ID_LEN`: two hex digits per byte of the 8-byte unique board id, and a NUL. */
  const IdLen: nat := 17

  /** Entries of `desc_string` (`count_of(desc_string)`): indices 0 to 4. */
  const StringCount: nat := 5

  /** `TUSB_DESC_STRING`, `TUSB_DESC_DEVICE`, `TUSB_DESC_CONFIGURATION`, `TUSB_DESC_INTERFACE`,
      `TUSB_DESC_ENDPOINT`. */
  const DescString: Byte := 3
  const DescDevice: Byte := 1
  const DescConfiguration: Byte := 2
  const DescInterface: Byte := 4
  const DescEndpoint: Byte := 5

  /** `LANGID` US English, the only entry of string descriptor 0. */
  const LangIdUsEnglish: U16 := 0x0409

  /** An ASCII literal as the bytes of a C string (without its NUL). */
  function Ascii(s: string): (b: seq<Byte>)
    requires forall k | 0 <= k < |s| :: s[k] as int < 128
    ensures |b| == |s| && forall k | 0 <= k < |s| :: b[k] == s[k] as int
  {
    seq(|s|, k requires 0 <= k < |s| => s[k] as int)
  }

  /** A filled `id`: hex digits (never NUL) followed by the terminating NUL. */
  predicate IdFilled(id: seq<Byte>)
  {
    |id| == IdLen && id[IdLen - 1] == 0 && forall k | 0 <= k < IdLen - 1 :: id[k] != 0
  }

  /** What `id` can hold: still all zero, or filled. */
  predicate IdState(id: seq<Byte>)
  {
    |id| == IdLen && (IdFilled(id) || forall k | 0 <= k < IdLen :: id[k] == 0)
  }

  /** The characters of `desc_string[index]` for indices 1 to 4, the serial being the filled `id`. */
  function TableString(index: nat, id: seq<Byte>): (s: seq<Byte>)
    requires 1 <= index < StringCount && IdFilled(id)
    ensures |s| <= IdLen - 1 && forall k | 0 <= k < |s| :: s[k] != 0
  {
    if index == 1 then Ascii("chungus")
    else if index == 2 then Ascii("sharpie")
    else if index == 3 then id[..IdLen - 1]
    else Ascii("yo mama")
  }

  /** The code units of string descriptor `index`: the one supported LANGID for index 0, the
      characters of the table string zero-extended otherwise. */
  function Units(index: nat, id: seq<Byte>): (u: seq<U16>)
    requires index < StringCount && IdFilled(id)
  {
    if index == 0 then [LangIdUsEnglish] else TableString(index, id)
  }

  /** `(TUSB_DESC_STRING << 8) | (2 * n + 2)`: the header unit of a descriptor with n code units,
      bDescriptorType in the high byte and bLength (bytes, header included) in the low byte. For
      the lengths the buffer allows the two operands occupy different bytes, so the OR is a sum
      (`ShiftOrIsSum`). */
  function HeaderWord(n: nat): (h: U16)
    requires n <= DescStrMax
    ensures h / 256 == DescString && h % 256 == 2 * n + 2
  {
    var h := DescString as int * 256 + (2 * n + 2);
    DivModUnique(h, 256, DescString as int, 2 * n + 2);
    h
  }

  /** On 16 bits, shifting the descriptor type into the high byte and OR-ing in a length below
      256 is the same as adding the two. */
  lemma ShiftOrIsSum(low: bv16)
    requires low < 256
    ensures ((DescString as bv16) << 8) | low == 768 + low
  {
  }

  /** The string descriptor for a table entry, as section 9.6.7 of USB 2.0 defines it: the header
      unit, then the code units. */
  function Descriptor(index: nat, id: seq<Byte>): (d: seq<U16>)
    requires index < StringCount && IdFilled(id)
    ensures 2 <= |d| <= DescStrMax
  {
    var u := Units(index, id);
    [HeaderWord(|u|)] + u
  }

  /** bLength counts the two header bytes plus two bytes per code unit, so it is the size of
      the descriptor in bytes; code units are the characters zero-extended. */
  lemma DescriptorLayout(index: nat, id: seq<Byte>)
    requires index < StringCount && IdFilled(id)
    ensures var d := Descriptor(index, id);
      && d[0] / 256 == DescString && d[0] % 256 == 2 * |d|
      && (index == 0 ==> d == [0x0304, 0x0409])
      && (index != 0 ==> |d| == |TableString(index, id)| + 1
                         && forall k | 0 <= k < |d| - 1 :: d[k + 1] == TableString(index, id)[k])
  {
  }

  /** The loop `for (n = 0; s[n] && n < DESC_STR_MAX; n++) str[n + 1] = s[n]` writes units 1 to
      min(len, 32) of `str`; all of them lie inside its 32 units exactly when the string has at most
      31 characters. */
  function LastUnitWritten(len: nat): nat
  {
    if len < DescStrMax then len else DescStrMax
  }

  lemma StringLoopInBounds(len: nat)
    ensures LastUnitWritten(len) < DescStrMax <==> len <= DescStrMax - 1
    ensures len <= DescStrMax - 1 ==> LastUnitWritten(len) == len
  {
  }

  /** Every string of the table fits the buffer, so the loop never writes past it. */
  lemma TableStringsFit(index: nat, id: seq<Byte>)
    requires 1 <= index < StringCount && IdFilled(id)
    ensures LastUnitWritten(|TableString(index, id)|) < DescStrMax
  {
  }

  /** The static state of `tud_descriptor_string_cb`: its `str` buffer and the serial `id`. */
  class StringTable {
    const str: array<U16>
    const id: array<Byte>

    ghost predicate Valid()
      reads this, id
    {
      str.Length == DescStrMax && IdState(id[..]) && str as object != id as object
    }

    /** Both statics start zero-filled. */
    constructor ()
      ensures Valid() && id[0] == 0
      ensures fresh(str) && fresh(id)
    {
      str := new U16[DescStrMax](_ => 0);
      id := new Byte[IdLen](_ => 0);
    }

    /** `tud_descriptor_string_cb(index, langid)`. `boardId` is what
        `pico_get_unique_board_id_string` writes: 16 hex digits. A result of false is NULL;
        true is a pointer to `str`. Units past the descriptor keep what earlier calls left. */
    method StringCallback(index: Byte, langid: U16, boardId: seq<Byte>) returns (found: bool)
      requires Valid()
      requires |boardId| == IdLen - 1 && forall k | 0 <= k < |boardId| :: boardId[k] != 0
      modifies str, id
      ensures Valid() && IdFilled(id[..])
      ensures old(id[0]) == 0 ==> id[..] == boardId + [0]
      ensures old(id[0]) != 0 ==> id[..] == old(id[..])
      ensures found <==> index < StringCount
      ensures !found ==> str[..] == old(str[..])
      ensures found ==>
        var d := Descriptor(index, id[..]);
        str[..|d|] == d && str[|d|..] == old(str[|d|..])
    {
      if id[0] == 0 {
        FillId(boardId);
      }
      if index >= StringCount {
        return false;
      }
      WriteDescriptor(index);
      found := true;
    }

    /** The part of `tud_descriptor_string_cb` after the index check: the code units, then the
        header unit. */
    method WriteDescriptor(index: Byte)
      requires Valid() && IdFilled(id[..]) && index < StringCount
      modifies str
      ensures var d := Descriptor(index, id[..]);
        str[..|d|] == d && str[|d|..] == old(str[|d|..])
    {
      ghost var u := Units(index, id[..]);
      ghost var d := Descriptor(index, id[..]);
      assert d == [HeaderWord(|u|)] + u;
      var n: nat;
      if index == 0 {
        str[1] := LangIdUsEnglish;
        n := 1;
      } else {
        n := CopyString(TableString(index, id[..]) + [0]);
      }
      assert |u| == n && str[1..n + 1] == u;
      str[0] := HeaderWord(n);
      assert str[..n + 1] == [str[0]] + str[1..n + 1];
    }

    /** `for (n = 0; s[n] && n < DESC_STR_MAX; n++) str[n + 1] = s[n];` over a NUL-terminated
        string that fits the buffer. */
    method CopyString(s: seq<Byte>) returns (n: nat)
      requires Valid() && 1 <= |s| <= DescStrMax && s[|s| - 1] == 0
      requires forall k | 0 <= k < |s| - 1 :: s[k] != 0
      modifies str
      ensures n == |s| - 1
      ensures str[1..n + 1] == s[..n]
      ensures str[0] == old(str[0]) && str[n + 1..] == old(str[n + 1..])
    {
      n := 0;
      while s[n] != 0 && n < DescStrMax
        invariant 0 <= n <= |s| - 1
        invariant str[1..n + 1] == s[..n]
        invariant str[0] == old(str[0]) && str[n + 1..] == old(str[n + 1..])
        decreases |s| - n
      {
        str[n + 1] := s[n];
        n := n + 1;
      }
    }

    /** `pico_get_unique_board_id_string(id, ID_LEN)`, done only while `id[0]` is NUL. */
    method FillId(boardId: seq<Byte>)
      requires Valid()
      requires |boardId| == IdLen - 1 && forall k | 0 <= k < |boardId| :: boardId[k] != 0
      modifies id
      ensures id[..] == boardId + [0] && IdFilled(id[..])
    {
      for k := 0 to IdLen - 1
        invariant id[..k] == boardId[..k]
      {
        id[k] := boardId[k];
      }
      id[IdLen - 1] := 0;
      assert id[..] == boardId + [0];
    }
  }

  // ---------------------------------------------------------------- constant descriptors

  /** Little-endian bytes of a 16-bit field. */
  function Le16(v: U16): (b: seq<Byte>)
    ensures |b| == 2 && b[0] as int + 256 * b[1] as int == v
  {
    [v % 256, v / 256]
  }

  /** `desc_device`: a packed `tusb_desc_device_t` for vendor class 0xFF, VID 0x2E8A, PID 0xA1B1,
      USB 2.00, device release 1.00, string indices 1 to 3, one configuration. `ep0Size` is
      `CFG_TUD_ENDPOINT0_SIZE`, set in the TinyUSB configuration header. */
  function DeviceDescriptor(ep0Size: Byte): (d: seq<Byte>)
    ensures |d| == 18
  {
    [18, DescDevice] + Le16(0x0200) + [0xFF, 0, 0, ep0Size] + Le16(0x2E8A) + Le16(0xA1B1)
      + Le16(0x0100) + [1, 2, 3, 1]
  }

  /** What a host reads from a device descriptor: bLength is `sizeof(tusb_desc_device_t)`, the
      length of the table, VID 0x2E8A and PID 0xA1B1, the EP0 size the device was built with,
      one configuration, and the three string indices name the manufacturer, product and serial
      strings of the string table. */
  predicate DeviceFields(d: seq<Byte>, ep0Size: Byte)
  {
    && |d| == 18 && d[0] as int == |d| && d[1] == DescDevice
    && d[8] as int + 256 * d[9] as int == 0x2E8A && d[10] as int + 256 * d[11] as int == 0xA1B1
    && d[7] == ep0Size && d[17] == 1
    && forall k | 14 <= k < 17 :: 1 <= d[k] < StringCount
  }

  lemma DeviceDescriptorFields(ep0Size: Byte)
    ensures DeviceFields(DeviceDescriptor(ep0Size), ep0Size)
  {
  }

  /** `TUD_CONFIG_DESCRIPTOR(config, itfs, stridx, total, attribute, power_ma)`. */
  function ConfigHeader(config: Byte, itfs: Byte, stridx: Byte, total: U16, attribute: Byte, powerMa: nat): (d: seq<Byte>)
    requires powerMa < 512 && attribute < 128
  {
    [9, DescConfiguration] + Le16(total) + [itfs, config, stridx, 128 + attribute, powerMa / 2]
  }

  /** `TUD_VENDOR_DESCRIPTOR(itf, stridx, ep_out, ep_in, ep_size)`: an interface with two bulk
      endpoints. */
  function VendorInterface(itf: Byte, stridx: Byte, epOut: Byte, epIn: Byte, epSize: U16): (d: seq<Byte>)
  {
    [9, DescInterface, itf, 0, 2, 0xFF, 0, 0, stridx]
      + [7, DescEndpoint, epOut, 2] + Le16(epSize) + [0]
      + [7, DescEndpoint, epIn, 2] + Le16(epSize) + [0]
  }

  /** `USBD_DESC_LEN`: `TUD_CONFIG_DESC_LEN + TUD_VENDOR_DESC_LEN`. */
  const ConfigTotalLength: U16 := 9 + 23

  /** `desc_cfg`. */
  function ConfigurationDescriptor(): (d: seq<Byte>)
    ensures |d| == ConfigTotalLength
  {
    ConfigHeader(1, 1, 0, ConfigTotalLength, 0, 50)
      + VendorInterface(0, 4, 0x01, 0x81, 64)
  }

  /** What a host reads from the configuration table: wTotalLength is its length, each part's
      bLength is that part's size, it has the one interface it announces, asking for 50 mA in
      2 mA units, with a vendor string index inside the string table and a bulk OUT endpoint 1 and
      bulk IN endpoint 0x81 of 64 bytes. */
  predicate ConfigurationFields(d: seq<Byte>)
  {
    && |d| == 32 && d[2] as int + 256 * d[3] as int == |d|
    && d[0] == 9 && d[1] == DescConfiguration && d[4] == 1 && d[8] as int * 2 == 50
    && d[9] == 9 && d[10] == DescInterface && d[13] == 2 && 1 <= d[17] < StringCount
    && d[18] == 7 && d[19] == DescEndpoint && d[20] == 0x01 && d[21] == 2 && d[22] as int + 256 * d[23] as int == 64
    && d[25] == 7 && d[26] == DescEndpoint && d[27] == 0x81 && d[28] == 2 && d[29] as int + 256 * d[30] as int == 64
  }

  lemma ConfigurationDescriptorFields()
    ensures ConfigurationFields(ConfigurationDescriptor())
  {
  }

  /** `tud_descriptor_device_cb`: the constant device table, with the fields a host relies on. */
  function DeviceCallback(ep0Size: Byte): (d: seq<Byte>)
    ensures DeviceFields(d, ep0Size)
    ensures d == DeviceDescriptor(ep0Size)
  {
    DeviceDescriptorFields(ep0Size);
    DeviceDescriptor(ep0Size)
  }

  /** `tud_descriptor_configuration_cb`: the constant configuration table whatever the index, with
      the fields a host relies on. */
  function ConfigurationCallback(index: Byte): (d: seq<Byte>)
    ensures ConfigurationFields(d)
    ensures d == ConfigurationDescriptor()
  {
    ConfigurationDescriptorFields();
    ConfigurationDescriptor()
  }
}
