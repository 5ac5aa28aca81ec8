# Magewell bulk-configuration tool, modelled in Dafny

The tool manages a fleet of Magewell streaming encoders. A FastAPI backend does three things:
- it discovers devices on an IPv4 subnet by pinging every host;
- it logs into each device to read its name;
- it pushes a per-device default settings document to every row of an uploaded CSV.

It also has a settings merge: a control device's settings are copied onto any target while the target keeps its own recording channels, the `rec-channels` subtree that carries the device id. A separate script fetches a device's HTML report and extracts its sections. A Next.js page lists discovered devices and builds a push request from the ones the user selects.

This project models the decision logic of those pieces and proves what it promises.

| file | module | models |
|---|---|---|
| `wrappers.dfy` | `Wrappers` | `Option` |
| `dicts.dfy` | `Dicts` | Python dicts as insertion-ordered association lists. `d[k] = v` replaces in place or appends. A dict display evaluates left to right, so a repeated key keeps its first position and its last value. |
| `json.dfy` | `Json` | JSON values: null, bool, int, float as a real, string, array, object; `WellFormed` says every object holds each key once, as decoded objects do |
| `magewell_settings.dfy` | `MagewellSettings` | `get_modified_settings(id)`. The entries outside `rec-channels` are transcribed verbatim. |
| `settings_merge.dfy` | `SettingsMerge` | `get_bulk_update_settings`: the loop, proved against a fold |
| `strings.dfy` | `Strings` | `str.split`, `str.join`, `str(n)` and `int(s)` for ASCII digits |
| `ipv4.dfy` | `Ipv4` | `ipaddress.ip_network(..., strict=False)` for IPv4 text, masking, `str()`, `hosts()`, and `get_local_subnet` |
| `cookies.dfy` | `Cookies` | the `"; "`-joined Cookie header and its read-back |
| `discovery.dfy` | `Discovery` | the following parts of `backend/app.py`: <br>• retry policy<br>• `login_device`<br>• `get_device_settings_with_login`<br>• `process_device`<br>• `run_bulk_update`<br>• `ping_magewell`<br>• the live filter and device list of `discover_magewell` |
| `report.dfy` | `Report` | `login_device` and `get_report` of `backend/test.py` |
| `selection.dfy` | `Selection` | the push-selection logic of `frontend/app/page.tsx` |

Network exchanges are inputs:
- **Retried calls:** for each attempt, either success with a value, an `aiohttp.ClientError`, or another exception.
- **Single requests:** the reply the request would get.
- **Discovery:** functions from address to reply.

Parsed HTML is a sequence of section records. Each record holds the optional heading text and the optional `pre.json` text.

Two behaviours of the code worth knowing:
- **HTTP error statuses are retried.** `raise_for_status` raises `ClientResponseError`, which is an `aiohttp.ClientError`, so a rejected login is retried like a dropped connection. The login reply's JSON is never inspected.
- **The ping rule ignores the HTTP status.** A reply whose JSON has `"result": 0` counts as live even with an error status.

## Model

| member | source | states |
|---|---|---|
| `MagewellSettings.GetModifiedSettings` | backend/magewell_settings.py:3-167 | the dict display of the source, evaluated left to right; what it holds is stated by `DefaultIsDict`, `DefaultRecChannels`, `RecChannelNames` and `DefaultsAgreeOffIdentity` |
| `MagewellSettings.DefaultIsDict` | backend/magewell_settings.py:3-167 | the default document has no top-level key twice |
| `MagewellSettings.DefaultRecChannels` | backend/magewell_settings.py:125-150 | the document's `rec-channels` is the three-channel subtree built from the id |
| `MagewellSettings.RecChannelNames` | backend/magewell_settings.py:125-150 | there are exactly three channels, with ids 0, 1, 2; channel 0 uses `id_REC_Folder` and `id_`, channel 1 uses `id` for both names, channel 2 uses fixed `REC_Folder` and `VID` |
| `MagewellSettings.DefaultsAgreeOffIdentity` | backend/magewell_settings.py:3-167 | documents for any two ids have the same keys in the same order and agree on every key but `rec-channels` |
| `SettingsMerge.Overrides` | backend/settings_merge.py:11-15 | the template entries the loop assigns: their keys are the template's keys in order with `rec-channels` left out |
| `SettingsMerge.BulkUpdateSettings` | backend/settings_merge.py:3-16 | the document `get_bulk_update_settings` returns, the fold the loop is proved equal to; its meaning is stated by `MergeKeepsIdentity`, `MergeLookup`, `MergeKeys`, `MergeIsDict` and `MergeIdempotent` |
| `SettingsMerge.GetBulkUpdateSettings` | backend/settings_merge.py:3-16 | the loop over the template builds exactly the fold: the baseline with every template entry but `rec-channels` assigned in template order; the template is a value and is only read |
| `SettingsMerge.OverridesStep` | backend/settings_merge.py:11-15 | one more template entry adds one assignment, or none when its key is `rec-channels` |
| `SettingsMerge.MergeKeepsIdentity` | backend/settings_merge.py:9-14 | the merged `rec-channels` is the target's own subtree, whatever the template holds |
| `SettingsMerge.MergeLookup` | backend/settings_merge.py:9-15 | a template key other than `rec-channels` takes the template's value, whole and not deep-merged; every other key keeps the baseline's value |
| `SettingsMerge.MergeKeys` | backend/settings_merge.py:10-15 | the merged keys are the baseline keys followed by the template's new keys in template order; the key set is the union of the two |
| `SettingsMerge.MergeIsDict` | backend/settings_merge.py:9-16 | the merged document has no key twice |
| `SettingsMerge.MergeIdempotent` | backend/settings_merge.py:9-16 | merging the merged document again for the same target changes nothing |
| `Ipv4.MaskAddress` | backend/app.py:371 | masking gives the block-aligned address `n` with `n <= a < n + 2^(32-prefix)` |
| `Ipv4.BlockFits` | backend/app.py:371 | an aligned block ends inside the 32-bit address space |
| `Ipv4.FormatAddress` | backend/app.py:382 | `str(ip)` is 7 to 15 characters long; `AddressRoundTrip` and `ParseAddressCanonical` make it the inverse of `ParseAddress` |
| `Ipv4.ParseAddress` | backend/app.py:371 | four dot-separated fields that each pass `ParseOctet`; its meaning is stated by `AddressRoundTrip` and `ParseAddressCanonical` |
| `Ipv4.ParseOctet` | backend/app.py:371 | a dotted-quad field is accepted iff it is 1 to 3 ASCII digits, has no leading zero except `0` itself, and is at most 255; its value is the decimal value |
| `Ipv4.OctetCanonical` | backend/app.py:371 | an accepted field is the decimal text of its value, so no second spelling of a value is accepted |
| `Ipv4.ParseAddressCanonical` | backend/app.py:371 | every accepted address text is `str` of the address it yields |
| `Ipv4.AddressRoundTrip` | backend/app.py:382 | parsing `str(ip)` gives `ip` back |
| `Ipv4.FormatAddressInjective` | backend/app.py:382 | distinct addresses have distinct text forms |
| `Ipv4.PrefixOfNetmask` | backend/app.py:371 | a dotted netmask yields the unique prefix length whose mask it is, or none |
| `Ipv4.NetmaskLength` | backend/app.py:371 | the prefix length whose netmask a number is, found among 0 to 32, or none when no netmask equals it |
| `Ipv4.NetmaskPrefix` | backend/app.py:371 | the netmask of every prefix length from 0 to 32 is read back as that length |
| `Ipv4.Hostmask` | backend/app.py:371 | the hostmask of a prefix length is `2^(32-prefix) - 1`, the host bits set |
| `Ipv4.DottedPrefix` | backend/app.py:371 | a dotted suffix yields a prefix length of at most 32 whose netmask or hostmask it is |
| `Ipv4.ParsePrefix` | backend/app.py:371 | an accepted suffix gives a prefix length of at most 32; every decimal text of value at most 32 (leading zeros allowed) is read as that value; which texts it accepts is stated by `ParsePrefixMeaning` |
| `Ipv4.ParsePrefixMeaning` | backend/app.py:371 | an accepted suffix is a decimal text of the prefix length, its dotted netmask, or its dotted hostmask |
| `Ipv4.DecimalPrefix` | backend/app.py:371 | the decimal text of every prefix length from 0 to 32 is read as that length |
| `Ipv4.PrefixForms` | backend/app.py:371 | for every prefix length from 0 to 32, its decimal text and its dotted netmask give that prefix |
| `Ipv4.HostmaskForm` | backend/app.py:371 | for prefix lengths 1 to 31, the dotted hostmask gives that prefix (for 0 and 32 the hostmask is the netmask of 32 and of 0, which is read first) |
| `Ipv4.ParseNetwork` | backend/app.py:370-373 | every accepted subnet is an aligned network with a prefix length of at most 32; which network is stated by `ParseNetworkMeaning` |
| `Ipv4.ParseNetworkMeaning` | backend/app.py:370-373 | an accepted subnet is either a bare address text, giving that address as a /32, or an address text, `/` and a suffix `ParsePrefix` accepts, giving the block of that prefix length that holds the address |
| `Ipv4.BareAddressNetwork` | backend/app.py:371 | every bare address text is accepted, as the /32 of that address |
| `Ipv4.ParseAddressSlash` | backend/app.py:371 | every address text, `/` and suffix is accepted iff the suffix is, and gives the masked block |
| `Ipv4.FormatNetwork` | backend/app.py:47-48 | `str(network)`; `NetworkRoundTrip` makes it the inverse of `ParseNetwork` on valid networks |
| `Ipv4.NetworkRoundTrip` | backend/app.py:45-48 | parsing `str(network)` gives the network back |
| `Ipv4.LocalSubnet` | backend/app.py:45-48 | `get_local_subnet` with the local address as a parameter; its meaning is stated by `LocalSubnetSpec` |
| `Ipv4.LocalSubnetSpec` | backend/app.py:45-48 | `get_local_subnet(p)` is the text of the block that holds the local address when `0 <= p <= 32`; any other `p` makes `ip_network` raise |
| `Ipv4.Hosts` | backend/app.py:375 | hosts are the addresses `network+1 ..` in order; there are `2^(32-prefix) - 2` of them, or none for the smallest blocks |
| `Ipv4.HostsExactly` | backend/app.py:375 | an address is a host iff it lies strictly between the network and broadcast addresses |
| `Ipv4.HostsIncreasing` | backend/app.py:375 | hosts come in strictly increasing order |
| `Ipv4.HostCount` | backend/app.py:375 | a block of prefix length up to 30 has `2^(32-prefix) - 2` hosts |
| `Ipv4.SlashThirtyHosts` | backend/app.py:371-375 | `10.0.0.0/30` has the hosts `10.0.0.1` and `10.0.0.2` |
| `Json.DecodeObject` | backend/app.py:279 | the object `response.json()` builds from its members holds each key once and has no more entries than members |
| `Json.DecodeObjectGet` | backend/app.py:279 | in a decoded object, a key repeated in the text holds the value of its last occurrence |
| `Json.WellFormedDecoded` | backend/app.py:302 | an object holding each key once is exactly what the decoder builds from its own members, so `Get` on it is `dict.get` |
| `Cookies.PairTexts` | backend/app.py:232-234 | one `name=value` text per cookie, in jar order |
| `Cookies.CookieHeader` | backend/app.py:232-234 | the header is empty iff the jar is; `CookieHeaderRoundTrip` makes it readable back |
| `Cookies.CookieHeaderRoundTrip` | backend/app.py:232-234 | the header reads back as the cookies, in order, when no name or value holds `;` and no name holds `=` |
| `Cookies.CookieHeaderInjective` | backend/test.py:23-25 | distinct such cookie lists give distinct headers |
| `Discovery.RetryFrom` | backend/app.py:223 | after `made` client errors, the call makes between `made+1` and 3 attempts in all; every attempt but the last failed with a client error; fewer than 3 attempts means the last did not; the outcome is that of the last attempt |
| `Discovery.Retry` | backend/app.py:223 | a fresh call makes 1 to 3 attempts; all but the last failed with a client error; fewer than 3 means the last did not; the outcome is the last attempt's |
| `Discovery.CallWithRetry` | backend/app.py:223 | the attempt-counter loop ends exactly as the retry policy does, with the same attempt count |
| `Discovery.RetryStopsEarly` | backend/app.py:223 | a first attempt that succeeds, or fails with anything but a client error, is the only attempt |
| `Discovery.RetryGivesUp` | backend/app.py:223 | three client errors in a row exhaust the policy, which gives up after 3 attempts |
| `Discovery.LoginDevice` | backend/app.py:224-236 | the login makes as many attempts as the policy allows; it succeeds iff some attempt does, and its value is that attempt's Cookie header |
| `Discovery.SettingsWithLogin` | backend/app.py:249-284 | the fetch is sent iff the login succeeded; the result is `{}` on a login or fetch failure and otherwise the fetched JSON as it is |
| `Discovery.SettingsFetchSingleAttempt` | backend/app.py:248-261 | the retry around the settings fetch makes exactly one attempt, because the function catches every exception |
| `Discovery.ProcessDevice` | backend/app.py:320-339 | a failed login sends no import; otherwise 1 to 3 import requests are sent, each carrying the device's address, its default document and the login's Cookie header; the device ends `Imported` iff both calls succeed; nothing escapes |
| `Discovery.PushedIdentity` | backend/app.py:333-336 | every document pushed to a device carries that device's own `rec-channels` |
| `Discovery.RunBulkUpdate` | backend/app.py:345-350 | there is one outcome per row, and it is `process_device` of that row |
| `Discovery.BulkIsolation` | backend/app.py:341-350 | whatever happens to one row's calls leaves every other row's outcome unchanged |
| `Discovery.PingMagewell` | backend/app.py:289-312 | live iff the body parsed as a JSON object whose `result` is one of `0`, `0.0`, `false`, `"0"` (the values Python finds equal to `0` or `"0"`); request failures, non-JSON bodies and non-object JSON are not live; the check never raises |
| `Discovery.LiveHosts` | backend/app.py:382 | the kept addresses are among the hosts, and there are no more of them than hosts or ping results |
| `Discovery.LiveHostsMembers` | backend/app.py:382 | an address is kept iff its ping result is exactly `True`; exceptions and the tail cut off by `zip` are dropped |
| `Discovery.LiveHostsIncreasing` | backend/app.py:382 | the filter keeps host order: from increasing hosts it keeps increasing, hence distinct, addresses |
| `Discovery.DeviceName` | backend/app.py:389-396 | the name is the settings' `name` when the settings are an object that has one, and `""` otherwise |
| `Discovery.BuildDeviceList` | backend/app.py:388-397 | one entry per discovered address, up to the shorter list, in order; entry `i` has address `i` and the name of result `i` |
| `Discovery.DiscoverMagewell` | backend/app.py:364-399 | a subnet that does not parse gives exactly `Invalid subnet: <subnet>`; otherwise the devices are the live hosts in host order, each with its address text and the name from its settings fetch |
| `Discovery.Discovered` | backend/app.py:375-382 | the addresses `discover_magewell` reports are hosts of the subnet, and there are no more of them than hosts |
| `Discovery.DiscoveredAreLiveHosts` | backend/app.py:375-382 | every reported address is a usable host that answered the ping; reported addresses are increasing and their texts distinct |
| `Discovery.LiveHostReported` | backend/app.py:375-382 | every usable host that answers the ping is reported |
| `Report.LoginDevice` | backend/test.py:9-26 | a failed request gives `""`; a body that is not JSON raises; otherwise the result is the Cookie header of the jar |
| `Report.LoginHeaderMeaning` | backend/test.py:21-26 | after a successful login the header is `""` iff the jar is empty, and otherwise it reads back as the jar |
| `Report.Contributions` | backend/test.py:57-63 | there is at most one assignment per section div |
| `Report.GetReport` | backend/test.py:28-65 | the section loop builds exactly the fold of the assignments of the divs that have both parts; the result is empty on a failed fetch or a missing container |
| `Report.ReportSections` | backend/test.py:28-65 | the dict `get_report` returns has no title twice and no more entries than section divs |
| `Report.ReportEmptyOnFailure` | backend/test.py:40-53 | a failed fetch or a page without `report-content` gives `{}` |
| `Report.ContributionKeys` | backend/test.py:57-63 | a title is assigned iff some div has both a heading with that text and a `pre.json` |
| `Report.ReportSectionsMeaning` | backend/test.py:55-65 | the sections have no title twice; a title is present iff some div with both parts has it; its text is the last such div's; the count is at most the number of contributing divs, hence of divs |
| `Report.LaterSectionWins` | backend/test.py:63 | of two divs with the same heading, the later one's text is kept |
| `Selection.Filter` | frontend/app/page.tsx:91 | the filtered list holds exactly the elements that are not the address |
| `Selection.FilterKeepsOrder` | frontend/app/page.tsx:91 | filtering keeps every other address in its place relative to the rest, and drops the address from between them |
| `Selection.Toggle` | frontend/app/page.tsx:88-95 | the address is selected afterwards iff it was not before; other addresses are unaffected; a new address is appended at the end |
| `Selection.ToggleNoDup` | frontend/app/page.tsx:88-95 | toggling keeps the selection free of duplicates |
| `Selection.ToggleTwice` | frontend/app/page.tsx:88-95 | toggling twice restores a selection that lacked the address; if it held it, the address moves to the end, so the selection is the same as a multiset |
| `Selection.SelectAll` | frontend/app/page.tsx:98-105 | checking gives every device address in device order; unchecking gives the empty selection |
| `Selection.Payload` | frontend/app/page.tsx:153-158 | the payload has at most one element per device |
| `Selection.PayloadMembers` | frontend/app/page.tsx:153-158 | a device is pushed iff its address is selected |
| `Selection.PayloadOnlySelected` | frontend/app/page.tsx:153-156 | every pushed target is a listed device whose address is selected, mapped to `{ip, magewell_id: name}` |
| `Selection.PayloadAppend` | frontend/app/page.tsx:153-154 | the payload follows device order, since the filter distributes over concatenation |
| `Selection.PayloadSelectAll` | frontend/app/page.tsx:101 | with every device selected, every device is pushed, in device order |
| `Selection.PushUpdates` | frontend/app/page.tsx:146-158 | an empty selection sends nothing and sets `No devices selected for push updates.`; any other selection sends the payload |
| `Selection.OnScanResult` | frontend/app/page.tsx:53-54 | a scan result replaces the devices and empties the selection |
| `Selection.OnSubmit` | frontend/app/page.tsx:77-85 | submitting a subnet empties both the devices and the selection |
| `Selection.OnToggle` | frontend/app/page.tsx:88 | a card's checkbox flips that device's membership and leaves the devices unchanged |
| `Selection.OnSelectAll` | frontend/app/page.tsx:98 | checking the box selects every device address in device order; unchecking selects none |
| `Selection.EventsKeepValid` | frontend/app/page.tsx:53-105 | scan, submit, toggle and select-all all keep the selection duplicate-free and within the listed devices |
| `Selection.SelectAllChecked` | frontend/app/page.tsx:238 | the checkbox expression as written; `SelectAllCheckedMeaning` states what it means |
| `Selection.SelectAllCheckedMeaning` | frontend/app/page.tsx:238 | on a valid page with distinct device addresses, the box is checked iff there is a device and every device is selected |

## Left out

- Network I/O is left out: `aiohttp` and `requests` sessions, the FastAPI endpoints, CORS, and the `/local-subnet` endpoint. `get_local_ip`'s UDP socket becomes a parameter of `LocalSubnet`. Every reply is an input.
- Concurrency is left out: semaphores, `asyncio.gather`, and the fire-and-forget `create_task`. The fan-out is a sequential map with per-row isolation.
- Timing is left out: timeouts and the 2-second wait between attempts. Only the attempt count is kept.
- MD5 hashing of the password is left out because it is a library call. It only shapes the login URL, which the model does not build.
- CSV parsing of the upload is left out. `csv.DictReader` gives a short row `None` for its missing fields. A `None` id would flow into `get_modified_settings` as text such as `None_REC_Folder`, and a `None` address into the request URLs. `Row` holds two strings, so it represents neither. A header without the `Magewell ID` or `Magewell IP` column makes `process_device` raise `KeyError` on every row (backend/app.py:321-322); the model has no such row either.
- BeautifulSoup traversal and `get_text(strip=True)` are left out. Sections arrive already parsed and stripped. An empty `report-content` div gives `{}` in the source and no sections here, which is the same result.
- IPv6 subnets are left out. `ip_network` accepts them in the source; the model rejects any text that is not IPv4.
- CPython's special cases for /31 and /32 `hosts()` are left out, because they differ between Python versions. `Ipv4.Hosts` applies the general rule throughout, which yields no hosts for those blocks.
- The JSON decoder itself is outside the model: `Json.DecodeObject` models only how it builds an object from members already read. `Json.WellFormed` describes the objects it produces, and `Json.WellFormedDecoded` shows that on those `Dicts.Get` agrees with `dict.get`. The ping rule and the device name are stated for any `Value`, so they also cover objects the decoder never produces, where `Get` reads the first of the repeated keys.
- Floats are reals. Only equality with `0.0` matters, in the ping rule.
- The server-side cookie parsing that `ReadCookieHeader` stands for is not part of this repository. It exists only to state that the header can be read back.
- Frontend rendering, fetch calls and the other components are left out. So are the `/set-control` and `/push-updates` endpoints the page calls: `backend/app.py` does not define them. The page's `rescan` parameter is left out too, because the backend ignores it.
- `backend/new.py` and `backend/GET.py` are left out: they are I/O scripts. The duplicate default builder at `backend/app.py:55-219` is modelled once, in `MagewellSettings`.
- `Report.LoginDevice` takes the cookie jar after `get_dict()` has collapsed it to one value per name.
