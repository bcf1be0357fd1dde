/** OTP messages and the bytes they stand for. Coordinates are kept as their
    32-bit patterns, a CID as its bytes. */
module OtpMessage {
  import opened Basics
  import opened OtpText
  import opened OtpWire
  import OrderedKeys

  // ----------------------------------------------------------------- messages

  datatype Vec = Vec(x: int, y: int, z: int) {
    predicate Valid() { U32(x) && U32(y) && U32(z) }
  }

  datatype VelAccel = VelAccel(vel: Vec, accel: Vec) {
    predicate Valid() { vel.Valid() && accel.Valid() }
  }

  datatype Frame = Frame(system: int, group: int, point: int) {
    predicate Valid() { U8(system) && U16(group) && U32(point) }
  }

  predicate U8(n: int) { 0 <= n < 0x100 }
  predicate U16(n: int) { 0 <= n < 0x1_0000 }
  predicate U32(n: int) { 0 <= n < 0x1_0000_0000 }
  predicate U64(n: int) { 0 <= n < 0x1_0000_0000_0000_0000 }

  datatype Modules = Modules(pos: Option<Vec>, posVelAccel: Option<VelAccel>, rot: Option<Vec>,
                             rotVelAccel: Option<VelAccel>, scale: Option<Vec>, frame: Option<Frame>) {
    predicate Valid() {
      && (pos.Some? ==> pos.value.Valid()) && (posVelAccel.Some? ==> posVelAccel.value.Valid())
      && (rot.Some? ==> rot.value.Valid()) && (rotVelAccel.Some? ==> rotVelAccel.value.Valid())
      && (scale.Some? ==> scale.value.Valid()) && (frame.Some? ==> frame.value.Valid())
    }

    /** Whether module type `k` is there, types numbered as in the enumeration. */
    predicate Has(k: int) {
      || (k == 0 && pos.Some?) || (k == 1 && posVelAccel.Some?) || (k == 2 && rot.Some?)
      || (k == 3 && rotVelAccel.Some?) || (k == 4 && scale.Some?) || (k == 5 && frame.Some?)
    }
  }

  const NO_MODULES := Modules(None, None, None, None, None, None)
  const TYPE_COUNT := 6

  datatype Point = Point(priority: int, timestamp: int, modules: Modules, name: Text, cid: seq<byte>) {
    predicate Valid() { U8(priority) && U64(timestamp) && modules.Valid() }
  }

  type Points = map<int, Point>
  type Groups = map<int, Points>

  datatype System = System(timestamp: int, fullPointSet: bool, groups: Groups) {
    predicate Valid() {
      && U64(timestamp)
      && forall g :: g in groups ==> U16(g) && ValidPoints(groups[g])
    }
  }

  predicate ValidPoints(points: Points) {
    forall p :: p in points ==> U32(p) && points[p].Valid()
  }

  /** What the OTP layer says of the sender. */
  datatype Props = Props(cid: seq<byte>, folio: int, page: int, lastPage: int, name: Text) {
    predicate Valid() { |cid| == 16 && U32(folio) && U16(page) && U16(lastPage) }
  }

  // ------------------------------------------------------------ transform bytes

  const HEADER: seq<byte> := [0x4f, 0x54, 0x50, 0x2d, 0x45, 0x31, 0x2e, 0x35, 0x39, 0x00, 0x00, 0x00]
  const MESSAGE_TRANSFORM := 1
  const MESSAGE_ADVERT := 2
  const LAYER_POINT := 1
  const LAYER_MODULE := 1
  const ESTA := 0

  function VecFields(v: Vec): seq<Field> { [F(4, v.x), F(4, v.y), F(4, v.z)] }

  function VelAccelFields(v: VelAccel): seq<Field> {
    [F(4, v.vel.x), F(4, v.vel.y), F(4, v.vel.z), F(4, v.accel.x), F(4, v.accel.y), F(4, v.accel.z)]
  }

  /** The fields of module type `k`, behind its number. */
  function ModuleFields(m: Modules, k: int): seq<Field>
    requires m.Has(k)
  {
    if k == 0 then [F(1, 0)] + VecFields(m.pos.value)
    else if k == 1 then VelAccelFields(m.posVelAccel.value)
    else if k == 2 then VecFields(m.rot.value)
    else if k == 3 then VelAccelFields(m.rotVelAccel.value)
    else if k == 4 then VecFields(m.scale.value)
    else [F(1, m.frame.value.system), F(2, m.frame.value.group), F(4, m.frame.value.point)]
  }

  function ModuleLay(m: Modules, k: int): Lay
    requires m.Has(k)
  {
    Lay(ESTA, Put([F(2, k + 1)] + ModuleFields(m, k)))
  }

  /** The module layers from type `k` on. */
  function ModuleLays(m: Modules, k: nat): seq<Lay>
    requires k <= TYPE_COUNT
    decreases TYPE_COUNT - k
  {
    if k == TYPE_COUNT then []
    else (if m.Has(k) then [ModuleLay(m, k)] else []) + ModuleLays(m, k + 1)
  }

  function PointFields(g: int, p: int, pt: Point): seq<Field> {
    [F(1, pt.priority), F(2, g), F(4, p), F(8, pt.timestamp), F(1, 0), F(4, 0)]
  }

  function PointLay(g: int, p: int, pt: Point): Lay {
    Lay(LAYER_MODULE, Put(PointFields(g, p, pt)) + Concat(ModuleLays(pt.modules, 0)))
  }

  /** The layers of the points `ids` of group `g`. */
  function PointLays(g: int, points: Points, ids: seq<int>): seq<Lay>
    requires forall p :: p in ids ==> p in points
  {
    if ids == [] then [] else [PointLay(g, ids[0], points[ids[0]])] + PointLays(g, points, ids[1..])
  }

  function GroupLays(groups: Groups, ids: seq<int>): seq<Lay>
    requires forall i :: 0 <= i < |ids| ==> ids[i] in groups
  {
    if ids == [] then []
    else
      var points := groups[ids[0]];
      PointLays(ids[0], points, OrderedKeys.Sorted(points.Keys)) + GroupLays(groups, ids[1..])
  }

  function SystemFields(number: int, s: System): seq<Field> {
    [F(1, number), F(8, s.timestamp), F(1, if s.fullPointSet then 0x80 else 0), F(4, 0)]
  }

  /** The layers of all points of a system, by group and then by point. */
  function AllPoints(s: System): seq<Lay> {
    GroupLays(s.groups, OrderedKeys.Sorted(s.groups.Keys))
  }

  function SystemLay(number: int, s: System): Lay {
    Lay(LAYER_POINT, Put(SystemFields(number, s)) + Concat(AllPoints(s)))
  }

  // ------------------------------------------------------------------ OTP layer

  function PageFields(props: Props): seq<Field> {
    [F(4, props.folio), F(2, props.page), F(2, props.lastPage), F(1, 0), F(4, 0)]
  }

  function OtpBody(props: Props, body: seq<byte>): seq<byte> {
    Put([F(1, 0), F(1, 0)]) + props.cid + Put(PageFields(props)) + ProtocolString(props.name) + body
  }

  function MessageBytes(kind: int, props: Props, body: seq<byte>): seq<byte> {
    HEADER + LayerBytes(Lay(kind, OtpBody(props, body)))
  }

  function TransformBytes(props: Props, number: int, s: System): seq<byte> {
    MessageBytes(MESSAGE_TRANSFORM, props, LayerBytes(SystemLay(number, s)))
  }

  // -------------------------------------------------------------------- adverts

  const ADVERT_MODULE := 1
  const ADVERT_NAME := 2
  const ADVERT_SYSTEM := 3
  const ADVERT_LIST := 1

  function TypesBytes(types: seq<int>): seq<byte> {
    if types == [] then [] else Put([F(2, ESTA), F(2, types[0] + 1)]) + TypesBytes(types[1..])
  }

  function SystemsBytes(numbers: seq<int>): seq<byte> {
    if numbers == [] then [] else Put([F(1, numbers[0])]) + SystemsBytes(numbers[1..])
  }

  function ModuleListLay(types: set<int>): Lay {
    Lay(ADVERT_LIST, Put([F(4, 0)]) + TypesBytes(OrderedKeys.Sorted(types)))
  }

  function SystemListLay(systems: set<int>, response: bool): Lay {
    Lay(ADVERT_LIST, Put([F(1, if response then 0x80 else 0), F(4, 0)]) + SystemsBytes(OrderedKeys.Sorted(systems)))
  }

  /** The name of a point is streamed as a byte array: behind its length. */
  function NameEntry(s: int, g: int, p: int, name: Text): seq<byte> {
    Put([F(1, s), F(2, g), F(4, p)]) + Put([F(4, NAME_BYTES + 1)]) + ProtocolString(name)
  }

  function PointNames(s: int, g: int, points: Points, ids: seq<int>): seq<byte>
    requires forall p :: p in ids ==> p in points
  {
    if ids == [] then [] else NameEntry(s, g, ids[0], points[ids[0]].name) + PointNames(s, g, points, ids[1..])
  }

  function GroupNames(s: int, groups: Groups, ids: seq<int>): seq<byte>
    requires forall i :: 0 <= i < |ids| ==> ids[i] in groups
  {
    if ids == [] then []
    else
      var points := groups[ids[0]];
      PointNames(s, ids[0], points, OrderedKeys.Sorted(points.Keys)) + GroupNames(s, groups, ids[1..])
  }

  function SystemNames(systems: map<int, System>, ids: seq<int>): seq<byte>
    requires forall i :: 0 <= i < |ids| ==> ids[i] in systems
  {
    if ids == [] then []
    else
      var groups := systems[ids[0]].groups;
      GroupNames(ids[0], groups, OrderedKeys.Sorted(groups.Keys)) + SystemNames(systems, ids[1..])
  }

  /** The names of all points; the options are zero for either operation. */
  function NameListLay(systems: map<int, System>): Lay {
    Lay(ADVERT_LIST, Put([F(1, 0), F(4, 0)]) + SystemNames(systems, OrderedKeys.Sorted(systems.Keys)))
  }

  function AdvertLay(kind: int, list: Lay): Lay {
    Lay(kind, Put([F(4, 0)]) + LayerBytes(list))
  }

  function ModuleAdvertBytes(props: Props, types: set<int>): seq<byte> {
    MessageBytes(MESSAGE_ADVERT, props, LayerBytes(AdvertLay(ADVERT_MODULE, ModuleListLay(types))))
  }

  function NameAdvertBytes(props: Props, systems: map<int, System>): seq<byte> {
    MessageBytes(MESSAGE_ADVERT, props, LayerBytes(AdvertLay(ADVERT_NAME, NameListLay(systems))))
  }

  function SystemAdvertBytes(props: Props, systems: set<int>, response: bool): seq<byte> {
    MessageBytes(MESSAGE_ADVERT, props, LayerBytes(AdvertLay(ADVERT_SYSTEM, SystemListLay(systems, response))))
  }
}
