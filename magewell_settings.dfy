/**
 * The default settings document that is pushed to a Magewell encoder
 * (backend/magewell_settings.py, repeated verbatim at backend/app.py:55-219).
 * Only the "rec-channels" entry depends on the device id; every other
 * top-level entry is a constant.
 */
module MagewellSettings {
  import opened Dicts
  import opened Json
  import opened Wrappers

  /** The key of the identity subtree: the recording channels named after the device. */
  const RecChannelsKey := "rec-channels"

  /** Recording channel 0: folder "<id>_REC_Folder", file prefix "<id>_". */
  function RecChannel0(id: string): Value
  {
    Object([
      Entry("id", Int(0)), Entry("type", Int(0)), Entry("is-use", Int(1)),
      Entry("stream-index", Int(0)), Entry("mode", Int(0)),
      Entry("dir-name", Str(id + "_REC_Folder")),
      Entry("file-prefix", Int(0)),
      Entry("prefix-name", Str(id + "_")),
      Entry("file-suffix", Int(0)),
      Entry("time-unit", Int(10)), Entry("audio", Int(0))
    ])
  }

  /** Recording channel 1: folder and file prefix are the id itself. */
  function RecChannel1(id: string): Value
  {
    Object([
      Entry("id", Int(1)), Entry("type", Int(1)), Entry("is-use", Int(0)),
      Entry("stream-index", Int(0)), Entry("mode", Int(0)),
      Entry("dir-name", Str(id)),
      Entry("file-prefix", Int(0)),
      Entry("prefix-name", Str(id)),
      Entry("file-suffix", Int(0)),
      Entry("time-unit", Int(90)), Entry("audio", Int(0))
    ])
  }

  /** Recording channel 2: fixed folder "REC_Folder" and prefix "VID". */
  const RecChannel2: Value :=
    Object([
      Entry("id", Int(2)), Entry("type", Int(2)), Entry("is-use", Int(0)),
      Entry("stream-index", Int(0)), Entry("mode", Int(0)),
      Entry("dir-name", Str("REC_Folder")),
      Entry("file-prefix", Int(0)),
      Entry("prefix-name", Str("VID")),
      Entry("file-suffix", Int(0)),
      Entry("time-unit", Int(30)), Entry("audio", Int(0))
    ])

  /** The identity subtree: the three recording channels of device `id`. */
  function RecChannels(id: string): Value
  {
    Array([RecChannel0(id), RecChannel1(id), RecChannel2])
  }

  /** The entries of the dict display in `get_modified_settings(id)`, in source order. */
  function DefaultEntries(id: string): seq<Entry<Value>>
  {
    FixedHead() + [Entry(RecChannelsKey, RecChannels(id))] + FixedTail()
  }

  /** `get_modified_settings(id)`: the default document for device `id`. */
  function GetModifiedSettings(id: string): Dict
  {
    DictLiteral(DefaultEntries(id))
  }

  /** The id-independent top-level entries that precede "rec-channels" (magewell_settings.py:5-124). */
  function FixedHead(): seq<Entry<Value>>
  {
    [
      Entry("is-low-latency", Int(0)),
      Entry("is-auto-send-file", Int(0)),
      Entry("is-auto-del-file", Int(0)),
      Entry("is-check-update", Int(0)),
      Entry("audio-sync-offset", Int(0)),
      Entry("enable-advanced-pcr", Int(0)),
      Entry("udp-mtu", Int(1496)),
      Entry("cloud-num", Int(2)),
      Entry("enable-ndi-hx3", Int(0)),
      Entry("enable-4k60-input", Int(0)),
      Entry("enable-usb-audio-capture", Int(1)),
      Entry("net-prior", Int(1)),
      Entry("input-source", Object([
        Entry("source", Int(2)),
        Entry("mixer", Object([
          Entry("input-device", Int(2)),
          Entry("is-hdmi-top", Int(0)),
          Entry("type", Int(0)),
          Entry("location", Int(2))
        ]))
      ])),
      Entry("use-nosignal-file", Int(1)),
      Entry("nosignal-files", Array([
        Object([
          Entry("id", Int(0)),
          Entry("is-use", Int(0)),
          Entry("is-edit", Int(0)),
          Entry("file-path", Str("/no-signal/default0.jpg")),
          Entry("time", Int(0))
        ]),
        Object([
          Entry("id", Int(1)),
          Entry("is-use", Int(0)),
          Entry("is-edit", Int(0)),
          Entry("file-path", Str("/no-signal/default1.jpg")),
          Entry("time", Int(0))
        ]),
        Object([
          Entry("id", Int(2)),
          Entry("is-use", Int(1)),
          Entry("is-edit", Int(1)),
          Entry("file-path", Str("/no-signal/default2.jpg")),
          Entry("time", Int(17149641665160202))
        ])
      ])),
      Entry("video-input-format", Object([
        Entry("hdmi", Object([
          Entry("is-color-fmt", Int(0)),
          Entry("color-fmt", Int(1)),
          Entry("is-quant-range", Int(0)),
          Entry("quant-range", Int(1))
        ])),
        Entry("sdi", Object([
          Entry("is-color-fmt", Int(0)),
          Entry("color-fmt", Int(1)),
          Entry("is-quant-range", Int(0)),
          Entry("quant-range", Int(1))
        ]))
      ])),
      Entry("video-output-format", Object([
        Entry("hdmi", Object([
          Entry("is-color-fmt", Int(0)),
          Entry("color-fmt", Int(3)),
          Entry("is-quant-range", Int(0)),
          Entry("quant-range", Int(2)),
          Entry("is-sat-range", Int(0)),
          Entry("sat-range", Int(2))
        ])),
        Entry("sdi", Object([
          Entry("is-color-fmt", Int(0)),
          Entry("color-fmt", Int(3)),
          Entry("is-quant-range", Int(0)),
          Entry("quant-range", Int(2)),
          Entry("is-sat-range", Int(0)),
          Entry("sat-range", Int(2))
        ]))
      ])),
      Entry("video-color", Object([
        Entry("hdmi", Object([
          Entry("contrast", Int(100)),
          Entry("brightness", Int(0)),
          Entry("saturation", Int(100)),
          Entry("hue", Int(0))
        ])),
        Entry("sdi", Object([
          Entry("contrast", Int(100)),
          Entry("brightness", Int(0)),
          Entry("saturation", Int(100)),
          Entry("hue", Int(0))
        ]))
      ])),
      Entry("volume", Object([
        Entry("is-spi", Int(1)),
        Entry("spi-gain", Int(0)),
        Entry("is-linein", Int(1)),
        Entry("linein-gain", Int(0)),
        Entry("is-lineout", Int(1)),
        Entry("lineout-gain", Int(0)),
        Entry("enable-mic-bias", Int(0))
      ])),
      Entry("audio-mixer", Object([
        Entry("enable-spi-mix", Int(0)),
        Entry("enable-lineout-mix", Int(1))
      ])),
      Entry("enable-deinterlace", Int(0)),
      Entry("deinterlace-mode", Int(1)),
      Entry("3d-output", Object([
        Entry("enable", Int(0)),
        Entry("mode", Int(1))
      ])),
      Entry("main-stream", Object([
        Entry("is-auto", Int(0)),
        Entry("codec", Int(1)),
        Entry("cx", Int(3840)),
        Entry("cy", Int(2160)),
        Entry("duration", Int(333333)),
        Entry("kbps", Int(25600)),
        Entry("gop", Int(60)),
        Entry("fourcc", Int(0)),
        Entry("profile", Int(0)),
        Entry("cbrstat", Int(60)),
        Entry("fullrange", Int(0)),
        Entry("is-vbr", Int(1)),
        Entry("min-vbr-qp", Int(12)),
        Entry("max-vbr-qp", Int(36)),
        Entry("is-time-code-sei", Int(0)),
        Entry("is-closed-caption-sei", Int(0)),
        Entry("ar-convert-mode", Int(2)),
        Entry("rotation", Int(0)),
        Entry("mirroring", Int(0)),
        Entry("crop", Object([
          Entry("is-use", Int(0)),
          Entry("effect", Object([
            Entry("x-offset", Int(0)),
            Entry("y-offset", Int(0)),
            Entry("act-w", Int(3840)),
            Entry("act-h", Int(2160))
          ])),
          Entry("crop", Object([
            Entry("x-offset", Int(0)),
            Entry("y-offset", Int(0)),
            Entry("act-w", Int(0)),
            Entry("act-h", Int(0))
          ]))
        ]))
      ])),
      Entry("sub-stream", Object([
        Entry("enable", Int(1)),
        Entry("codec", Int(1)),
        Entry("cx", Int(1280)),
        Entry("cy", Int(720)),
        Entry("duration", Int(333667)),
        Entry("kbps", Int(2048)),
        Entry("gop", Int(60)),
        Entry("fourcc", Int(0)),
        Entry("profile", Int(0)),
        Entry("cbrstat", Int(60)),
        Entry("fullrange", Int(0)),
        Entry("is-vbr", Int(0)),
        Entry("min-vbr-qp", Int(0)),
        Entry("max-vbr-qp", Int(0)),
        Entry("is-time-code-sei", Int(0)),
        Entry("is-closed-caption-sei", Int(0)),
        Entry("ar-convert-mode", Int(2)),
        Entry("rotation", Int(0)),
        Entry("mirroring", Int(0)),
        Entry("crop", Object([
          Entry("is-use", Int(0)),
          Entry("effect", Object([
            Entry("x-offset", Int(0)),
            Entry("y-offset", Int(0)),
            Entry("act-w", Int(1280)),
            Entry("act-h", Int(720))
          ])),
          Entry("crop", Object([
            Entry("x-offset", Int(0)),
            Entry("y-offset", Int(0)),
            Entry("act-w", Int(0)),
            Entry("act-h", Int(0))
          ]))
        ]))
      ])),
      Entry("channel-mask", Int(255)),
      Entry("audio-stream-count", Int(1)),
      Entry("audio-streams", Array([
        Object([
          Entry("sample-rate", Int(48000)),
          Entry("channels", Int(2)),
          Entry("kbps", Int(192)),
          Entry("ch0", Int(0)),
          Entry("ch1", Int(1)),
          Entry("ch2", Int(2)),
          Entry("ch3", Int(3)),
          Entry("ch4", Int(4)),
          Entry("ch5", Int(5)),
          Entry("ch6", Int(6)),
          Entry("ch7", Int(7)),
          Entry("use-lfe", Int(0))
        ])
      ])),
      Entry("eth", Object([
        Entry("is-dhcp", Int(1)),
        Entry("ip", Str("")),
        Entry("mask", Str("")),
        Entry("router", Str("")),
        Entry("dns", Str(""))
      ])),
      Entry("enable-station", Int(1)),
      Entry("wifi", Array([
        Object([
          Entry("name", Str("Sector 2024")),
          Entry("passwd", Str("c2VjdG9yMjAyNA==")),
          Entry("identity", Str("")),
          Entry("freq", Int(0)),
          Entry("level", Int(0)),
          Entry("secu", Int(3)),
          Entry("is-auto", Int(1)),
          Entry("is-use", Int(0)),
          Entry("is-hide", Int(0)),
          Entry("is-dhcp", Int(1)),
          Entry("ip", Str("")),
          Entry("mask", Str("")),
          Entry("router", Str("")),
          Entry("dns", Str(""))
        ]),
        Object([
          Entry("name", Str("BLACKHATEUROPE2024")),
          Entry("passwd", Str("QkhFVVJPUEUyMDI0")),
          Entry("identity", Str("")),
          Entry("freq", Int(0)),
          Entry("level", Int(0)),
          Entry("secu", Int(3)),
          Entry("is-auto", Int(1)),
          Entry("is-use", Int(0)),
          Entry("is-hide", Int(0)),
          Entry("is-dhcp", Int(1)),
          Entry("ip", Str("")),
          Entry("mask", Str("")),
          Entry("router", Str("")),
          Entry("dns", Str(""))
        ])
      ])),
      Entry("softap", Object([
        Entry("is-softap", Int(0)),
        Entry("is-visible", Int(1)),
        Entry("softap-ssid", Str("B313231201201")),
        Entry("softap-passwd", Str("31201201"))
      ])),
      Entry("rndis", Object([
        Entry("ip", Str("192.168.66.1")),
        Entry("mask", Str("255.255.255.0"))
      ])),
      Entry("stream-server", Array([
        Object([
          Entry("id", Int(0)),
          Entry("type", Int(121)),
          Entry("name", Str("SRT Listener")),
          Entry("is-use", Int(1)),
          Entry("port", Int(8000)),
          Entry("max-connections", Int(1)),
          Entry("latency", Int(200)),
          Entry("bandwidth", Int(25)),
          Entry("net-mode", Int(0)),
          Entry("stream-index", Int(1)),
          Entry("aes", Int(0)),
          Entry("aes-word", Str("")),
          Entry("mtu", Int(1496)),
          Entry("audio", Int(0)),
          Entry("audio-streams", Int(1)),
          Entry("is-media-hub", Int(0))
        ])
      ]))
    ]
  }

  /** The id-independent top-level entries that follow "rec-channels" (magewell_settings.py:151-166). */
  function FixedTail(): seq<Entry<Value>>
  {
    [
      Entry("nas", Array([])),
      Entry("send-file-cloud", Array([])),
      Entry("schedulers", Array([])),
      Entry("image", Array([
        Object([
          Entry("id", Int(0)),
          Entry("name", Str("")),
          Entry("type", Int(1)),
          Entry("path", Str("/surface-image/image0.png")),
          Entry("time", Int(17091101447340797)),
          Entry("cx", Int(401)),
          Entry("cy", Int(50))
        ])
      ])),
      Entry("surface", Object([
        Entry("main-surface", Int(0)),
        Entry("second-surface", Int(0)),
        Entry("surfaces", Array([]))
      ])),
      Entry("web", Object([
        Entry("is-http", Int(1)),
        Entry("http-port", Int(80)),
        Entry("is-https", Int(0)),
        Entry("https-port", Int(443)),
        Entry("is-cert-valid", Int(0)),
        Entry("is-cert-key-valid", Int(0)),
        Entry("theme", Int(0))
      ])),
      Entry("rec", Object([
        Entry("is-auto", Int(0)),
        Entry("trigger-mode", Int(0))
      ])),
      Entry("living", Object([
        Entry("ts", Object([
          Entry("mtu", Int(1496))
        ])),
        Entry("hls-push", Object([
          Entry("seg-count", Int(3)),
          Entry("seg-duration", Int(3))
        ])),
        Entry("ndi-find", Object([
          Entry("group-name", Str("Public")),
          Entry("extra-ips", Str("")),
          Entry("enable-discovery", Int(0)),
          Entry("discovery-server", Str(""))
        ]))
      ])),
      Entry("date-time", Object([
        Entry("timezone", Str("America/Los_Angeles")),
        Entry("is-auto", Int(1)),
        Entry("ntp-server", Str("0.pool.ntp.org")),
        Entry("ntp-server-backup", Str("1.pool.ntp.org"))
      ])),
      Entry("lcd-control", Object([
        Entry("no-touch", Int(0)),
        Entry("page-idx", Int(1)),
        Entry("no-flip", Int(0)),
        Entry("duration", Int(666667))
      ]))
    ]
  }

  /** The default document is a dict: no top-level key appears twice. */
  lemma DefaultIsDict(id: string)
    ensures UniqueKeys(GetModifiedSettings(id))
  {
    PutAllUnique([], DefaultEntries(id));
  }

  /** No id-independent entry after the identity subtree reuses its key. */
  lemma RecChannelsNotInTail()
    ensures RecChannelsKey !in Keys(FixedTail())
  {
    assert forall v :: Entry(RecChannelsKey, v) !in FixedTail();
    assert Get(FixedTail(), RecChannelsKey) == None;
  }

  /** The document carries the identity subtree of `id` under "rec-channels". */
  lemma DefaultRecChannels(id: string)
    ensures Get(GetModifiedSettings(id), RecChannelsKey) == Some(RecChannels(id))
  {
    RecChannelsNotInTail();
    DisplayGet(FixedHead(), RecChannelsKey, RecChannels(id), FixedTail());
  }

  /**
   * The identity subtree holds exactly three recording channels, with ids
   * 0, 1 and 2; channels 0 and 1 derive their folder and file prefix from
   * the device id, channel 2 does not.
   */
  lemma RecChannelNames(id: string)
    ensures |RecChannels(id).items| == 3
    ensures forall n :: 0 <= n < 3 ==>
      RecChannels(id).items[n].Object? && Entry("id", Int(n)) in RecChannels(id).items[n].members
    ensures Entry("dir-name", Str(id + "_REC_Folder")) in RecChannel0(id).members
    ensures Entry("prefix-name", Str(id + "_")) in RecChannel0(id).members
    ensures Entry("dir-name", Str(id)) in RecChannel1(id).members
    ensures Entry("prefix-name", Str(id)) in RecChannel1(id).members
    ensures Entry("dir-name", Str("REC_Folder")) in RecChannel2.members
    ensures Entry("prefix-name", Str("VID")) in RecChannel2.members
  {
  }

  /**
   * The documents of any two devices have the same top-level keys, in the
   * same order, and the same value under every key but "rec-channels".
   */
  lemma DefaultsAgreeOffIdentity(id1: string, id2: string)
    ensures Keys(GetModifiedSettings(id1)) == Keys(GetModifiedSettings(id2))
    ensures forall k :: k != RecChannelsKey ==>
      Get(GetModifiedSettings(id1), k) == Get(GetModifiedSettings(id2), k)
  {
    DisplaysAgreeExcept(FixedHead(), RecChannelsKey, RecChannels(id1), RecChannels(id2), FixedTail());
  }
}
