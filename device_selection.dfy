/**
 * Client-side shapes of the API (app/lib/apiUtils.ts): a device as the
 * client sees it carries `isActive` and `createdAt`, which the server's
 * records do not have.
 */
module ApiTypes {
  import opened JsText

  datatype ClientDevice = ClientDevice(deviceId: string, deviceName: string, isActive: bool, createdAt: string)

  datatype ClientUser = ClientUser(
    userId: string,
    email: string,
    name: Option<string>,
    phoneNumber: Option<string>,
    devices: seq<ClientDevice>)

  /** A parsed response body; every field may be missing from the JSON. */
  datatype ApiResponse = ApiResponse(
    success: bool,
    message: Option<string>,
    user: Option<ClientUser>,
    errorCode: Option<int>)
}

/**
 * The device list of the limit dialog
 * (app/Components/DeviceSelectionModal.tsx): an icon chosen from the
 * device name, only active devices listed, and a row's button reporting
 * that row's device id.
 */
module DeviceSelection {
  import opened JsText
  import opened ApiTypes
  import DeviceUtils

  datatype Icon = Smartphone | Tablet | Monitor

  /** `getDeviceIcon`: the name is lower-cased, then phone/mobile win over tablet/ipad. */
  function DeviceIcon(deviceName: string): (icon: Icon)
    ensures icon == Smartphone <==>
      Contains(LowerAscii(deviceName), "phone") || Contains(LowerAscii(deviceName), "mobile")
    ensures icon == Tablet <==>
      && !Contains(LowerAscii(deviceName), "phone") && !Contains(LowerAscii(deviceName), "mobile")
      && (Contains(LowerAscii(deviceName), "tablet") || Contains(LowerAscii(deviceName), "ipad"))
    ensures icon == Monitor <==>
      && !Contains(LowerAscii(deviceName), "phone") && !Contains(LowerAscii(deviceName), "mobile")
      && !Contains(LowerAscii(deviceName), "tablet") && !Contains(LowerAscii(deviceName), "ipad")
  {
    var name := LowerAscii(deviceName);
    if Contains(name, "phone") || Contains(name, "mobile") then Smartphone
    else if Contains(name, "tablet") || Contains(name, "ipad") then Tablet
    else Monitor
  }

  /** The choice ignores case: a name and its lower-case form get the same icon. */
  lemma DeviceIconIgnoresCase(deviceName: string)
    ensures DeviceIcon(LowerAscii(deviceName)) == DeviceIcon(deviceName)
  {
    LowerAsciiIdempotent(deviceName);
  }

  /** The smartphone test comes first: a name with both "mobile" and "ipad" is a smartphone. */
  lemma PhoneTestedBeforeTablet()
    ensures DeviceIcon("iPad Mobile") == Smartphone
  {
    var lower := LowerAscii("iPad Mobile");
    assert lower == "ipad mobile";
    OccursContains(lower, "mobile", 5);
  }

  /** "iPhone" and "Mobile Device" show a smartphone. */
  lemma SmartphoneLabels()
    ensures DeviceIcon("iPhone") == Smartphone
    ensures DeviceIcon("Mobile Device") == Smartphone
  {
    var lower := LowerAscii("iPhone");
    assert lower == "iphone";
    OccursContains(lower, "phone", 1);
    var lowerMobile := LowerAscii("Mobile Device");
    assert lowerMobile == "mobile device";
    OccursContains(lowerMobile, "mobile", 0);
  }

  /** "iPad" shows a tablet. */
  lemma TabletLabel()
    ensures DeviceIcon("iPad") == Tablet
  {
    var lower := LowerAscii("iPad");
    assert lower == "ipad";
    NotContainsMissingChar(lower, "phone", 'h');
    NotContainsMissingChar(lower, "mobile", 'm');
    OccursContains(lower, "ipad", 0);
  }

  /** A name whose lower-case form lacks a letter of each of the four words shows a monitor. */
  lemma MonitorWhenWordsMissing(deviceName: string, lower: string, p: char, m: char, t: char, i: char)
    requires LowerAscii(deviceName) == lower
    requires p in "phone" && p !in lower
    requires m in "mobile" && m !in lower
    requires t in "tablet" && t !in lower
    requires i in "ipad" && i !in lower
    ensures DeviceIcon(deviceName) == Monitor
  {
    NotContainsMissingChar(lower, "phone", p);
    NotContainsMissingChar(lower, "mobile", m);
    NotContainsMissingChar(lower, "tablet", t);
    NotContainsMissingChar(lower, "ipad", i);
  }

  /** "Android Device" matches neither test: an Android phone shows a monitor. */
  lemma AndroidLabelIsMonitor()
    ensures DeviceIcon("Android Device") == Monitor
  {
    MonitorWhenWordsMissing("Android Device", "android device", 'p', 'm', 't', 'p');
  }

  lemma MacLabelIsMonitor()
    ensures DeviceIcon("Mac") == Monitor
  {
    MonitorWhenWordsMissing("Mac", "mac", 'p', 'b', 't', 'i');
  }

  lemma WindowsLabelIsMonitor()
    ensures DeviceIcon("Windows PC") == Monitor
  {
    MonitorWhenWordsMissing("Windows PC", "windows pc", 'h', 'm', 't', 'a');
  }

  lemma LinuxLabelIsMonitor()
    ensures DeviceIcon("Linux PC") == Monitor
  {
    MonitorWhenWordsMissing("Linux PC", "linux pc", 'h', 'm', 't', 'a');
  }

  lemma DesktopBrowserLabelIsMonitor()
    ensures DeviceIcon("Desktop Browser") == Monitor
  {
    MonitorWhenWordsMissing("Desktop Browser", "desktop browser", 'h', 'm', 'a', 'i');
  }

  /**
   * Over the eight labels `getDeviceName` can produce, the icon is a
   * smartphone for exactly "iPhone" and "Mobile Device", a tablet for
   * exactly "iPad", and a monitor for the rest, "Android Device" included.
   */
  lemma IconsOfDeviceLabels(name: string)
    requires name in DeviceUtils.MobileLabels + DeviceUtils.DesktopLabels
    ensures DeviceIcon(name) == Smartphone <==> name == "iPhone" || name == "Mobile Device"
    ensures DeviceIcon(name) == Tablet <==> name == "iPad"
  {
    if name == "iPhone" || name == "Mobile Device" {
      SmartphoneLabels();
    } else if name == "iPad" {
      TabletLabel();
    } else if name == "Android Device" {
      AndroidLabelIsMonitor();
    } else if name == "Mac" {
      MacLabelIsMonitor();
    } else if name == "Windows PC" {
      WindowsLabelIsMonitor();
    } else if name == "Linux PC" {
      LinuxLabelIsMonitor();
    } else {
      assert name == "Desktop Browser";
      DesktopBrowserLabelIsMonitor();
    }
  }

  /** `devices.filter(device => device.isActive)`. */
  function ActiveDevices(devices: seq<ClientDevice>): (active: seq<ClientDevice>)
    ensures |active| <= |devices|
    ensures forall i :: 0 <= i < |active| ==> active[i].isActive && active[i] in devices
    ensures forall i :: 0 <= i < |devices| && devices[i].isActive ==> devices[i] in active
  {
    if devices == [] then []
    else (if devices[0].isActive then [devices[0]] else []) + ActiveDevices(devices[1..])
  }

  /** The filter keeps the original order: filtering a concatenation concatenates the filtered parts. */
  lemma {:induction false} ActiveDevicesKeepsOrder(a: seq<ClientDevice>, b: seq<ClientDevice>)
    ensures ActiveDevices(a + b) == ActiveDevices(a) + ActiveDevices(b)
  {
    if a != [] {
      assert (a + b)[1..] == a[1..] + b;
      ActiveDevicesKeepsOrder(a[1..], b);
    } else {
      assert a + b == b;
    }
  }

  /** One rendered row: icon, name and the id its button reports. */
  datatype Row = Row(icon: Icon, deviceName: string, deviceId: string)

  function Rows(devices: seq<ClientDevice>): seq<Row>
  {
    var active := ActiveDevices(devices);
    seq(|active|, k requires 0 <= k < |active| =>
      Row(DeviceIcon(active[k].deviceName), active[k].deviceName, active[k].deviceId))
  }

  /**
   * The button of row `k` calls `onDeviceSelect` with exactly the id of the
   * k-th active device, and so with the id of a device that is listed and active.
   */
  function SelectRow(devices: seq<ClientDevice>, k: nat): (deviceId: string)
    requires k < |Rows(devices)|
    ensures deviceId == ActiveDevices(devices)[k].deviceId
    ensures exists i :: 0 <= i < |devices| && devices[i].isActive && devices[i].deviceId == deviceId
  {
    var active := ActiveDevices(devices);
    assert active[k] in devices;
    Rows(devices)[k].deviceId
  }
}
