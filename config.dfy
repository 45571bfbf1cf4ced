/** The compiled-in constants of main.py: the class tables and the camera registry. */
module Config {

  /** The four vehicle classes, in the order the count map is built. */
  const TargetClasses: seq<string> := ["car", "truck", "bus", "motorcycle"]

  /** The detector's label for each class, in the dictionary's own order. */
  const ClassNameToId: seq<(string, int)> := [("car", 2), ("motorcycle", 3), ("bus", 5), ("truck", 7)]

  datatype Camera = Camera(name: string, url: string)

  const Cameras: seq<Camera> := [
    Camera("九如二路、天津街", "https://cctv5.kctmc.nat.gov.tw/stream/hls/hls/Cam264.m3u8"),
    Camera("九如二路、自立一路", "https://cctv3.kctmc.nat.gov.tw/51d496c0/&t=1749968518299"),
    Camera("自立一路、建國三路", "https://cctv6.kctmc.nat.gov.tw/1dd04532/&t=1749968617874"),
    Camera("九如二路、重慶街", "https://cctv6.kctmc.nat.gov.tw/ae6689ba/&t=1749968664751"),
    Camera("站西路", "https://cctv4.kctmc.nat.gov.tw/c9653df7/&t=1749968701234"),
    Camera("站西路、建國三路", "https://cctv6.kctmc.nat.gov.tw/abc0307b/&t=1749968773923"),
    Camera("站東路南側路口", "https://cctv1.kctmc.nat.gov.tw/02f22e11/&t=1749968804433"),
    Camera("站東路", "https://cctv6.kctmc.nat.gov.tw/7f82a59c/&t=1749968871527"),
    Camera("九如二路、松江路", "https://cctv1.kctmc.nat.gov.tw/6e559e58/&t=1749968945459"),
    Camera("建國二路、南華路", "https://cctv6.kctmc.nat.gov.tw/d5ce1b72/&t=1749968985350")
  ]

  /** The label of a target class, looked up in ClassNameToId. */
  function IdOf(cls: string): (id: int)
    requires cls in TargetClasses
    ensures (cls, id) in ClassNameToId
  {
    if cls == "car" then 2 else if cls == "motorcycle" then 3 else if cls == "bus" then 5 else 7
  }

  /** Both tables name the same four classes, and no two classes share a label. */
  lemma TablesAgree()
    ensures forall p :: p in ClassNameToId ==> p.0 in TargetClasses && IdOf(p.0) == p.1
    ensures forall c :: c in TargetClasses <==> exists id :: (c, id) in ClassNameToId
    ensures forall c, d :: c in TargetClasses && d in TargetClasses && c != d ==> IdOf(c) != IdOf(d)
  {
    forall c | c in TargetClasses
      ensures exists id :: (c, id) in ClassNameToId
    {
      assert (c, IdOf(c)) in ClassNameToId;
    }
  }
}
