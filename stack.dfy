/**
 * The `Stack` container (stack/stack.py): the host-side record of which
 * Bluetooth profile components a test has initialised. Each of its four slots
 * (GAP, GATT, Mesh, L2CAP) is either absent (`None`) or holds a component
 * object. The components' own classes are not part of this model: GAP, GATT
 * and L2CAP are objects with no observable state, and Mesh keeps the seven
 * values it was created from.
 */
module Stack {
  import opened Wrappers

  /** `stack.gap.Gap` */
  class Gap {
    constructor ()
    {
    }
  }

  /** `stack.gatt.Gatt` */
  class Gatt {
    constructor ()
    {
    }
  }

  /** `stack.l2cap.L2CAP` */
  class L2cap {
    constructor ()
    {
    }
  }

  /** The seven values a Mesh component is created from. */
  datatype MeshConfig = MeshConfig(
    devUuid: string,
    staticAuth: string,
    outputSize: int,
    outputActions: int,
    inputSize: int,
    inputActions: int,
    crplSize: int)

  /** `stack.mesh.Mesh`, seen through the values it was created from. */
  class Mesh {
    const devUuid: string
    const staticAuth: string
    const outputSize: int
    const outputActions: int
    const inputSize: int
    const inputActions: int
    const crplSize: int

    function Config(): MeshConfig
    {
      MeshConfig(devUuid, staticAuth, outputSize, outputActions, inputSize, inputActions, crplSize)
    }

    constructor (uuid: string, oob: string, outputSize: int, outputActions: int,
                 inputSize: int, inputActions: int, crplSize: int)
      ensures Config()
              == MeshConfig(uuid, oob, outputSize, outputActions, inputSize, inputActions, crplSize)
    {
      this.devUuid := uuid;
      this.staticAuth := oob;
      this.outputSize := outputSize;
      this.outputActions := outputActions;
      this.inputSize := inputSize;
      this.inputActions := inputActions;
      this.crplSize := crplSize;
    }
  }

  /** Which of the four slots hold a component. */
  datatype Presence = Presence(gap: bool, gatt: bool, mesh: bool, l2cap: bool)

  /** What `cleanup` is meant to keep: the presence pattern and the Mesh configuration. */
  datatype StackView = StackView(presence: Presence, meshConfig: Option<MeshConfig>)

  class Stack {
    var gap: Gap?
    var gatt: Gatt?
    var mesh: Mesh?
    var l2cap: L2cap?

    function Present(): Presence
      reads this
    {
      Presence(gap != null, gatt != null, mesh != null, l2cap != null)
    }

    function View(): StackView
      reads this
    {
      StackView(Present(), if mesh == null then None else Some(mesh.Config()))
    }

    /** `Stack()`: every slot starts absent. */
    constructor ()
      ensures Present() == Presence(false, false, false, false)
    {
      gap := null;
      gatt := null;
      mesh := null;
      l2cap := null;
    }

    /** `gap_init`: a new GAP component; the other slots are untouched. */
    method GapInit()
      modifies this
      ensures gap != null && fresh(gap)
      ensures gatt == old(gatt) && mesh == old(mesh) && l2cap == old(l2cap)
    {
      gap := new Gap();
    }

    /** `gatt_init`: a new GATT component; the other slots are untouched. */
    method GattInit()
      modifies this
      ensures gatt != null && fresh(gatt)
      ensures gap == old(gap) && mesh == old(mesh) && l2cap == old(l2cap)
    {
      gatt := new Gatt();
    }

    /** `l2cap_init`: a new L2CAP component; the other slots are untouched. */
    method L2capInit()
      modifies this
      ensures l2cap != null && fresh(l2cap)
      ensures gap == old(gap) && gatt == old(gatt) && mesh == old(mesh)
    {
      l2cap := new L2cap();
    }

    /** `mesh_init`: a new Mesh component built from the given values; the
        other slots are untouched. */
    method MeshInit(uuid: string, oob: string, outputSize: int, outputActions: int,
                    inputSize: int, inputActions: int, crplSize: int)
      modifies this
      ensures mesh != null && fresh(mesh)
      ensures mesh.Config()
              == MeshConfig(uuid, oob, outputSize, outputActions, inputSize, inputActions, crplSize)
      ensures gap == old(gap) && gatt == old(gatt) && l2cap == old(l2cap)
    {
      mesh := new Mesh(uuid, oob, outputSize, outputActions, inputSize, inputActions, crplSize);
    }

    /** `cleanup`: every present component is replaced by a new one and every
        absent slot stays absent; Mesh is rebuilt from the old Mesh's own
        values. The view is therefore unchanged, so a second `cleanup` leaves
        the same view as the first. */
    method Cleanup()
      modifies this
      ensures View() == old(View())
      ensures old(gap) != null ==> fresh(gap)
      ensures old(gatt) != null ==> fresh(gatt)
      ensures old(mesh) != null ==> fresh(mesh)
      ensures old(l2cap) != null ==> fresh(l2cap)
    {
      if gap != null {
        GapInit();
      }
      if mesh != null {
        MeshInit(mesh.devUuid, mesh.staticAuth, mesh.outputSize, mesh.outputActions,
                 mesh.inputSize, mesh.inputActions, mesh.crplSize);
      }
      if l2cap != null {
        l2cap := new L2cap();
      }
      if gatt != null {
        gatt := new Gatt();
      }
    }
  }
}
