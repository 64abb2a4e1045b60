/** Types shared by the stack and queue modules. */
module AdtTypes {

  /** The element type of both containers: `typedef int Data`, a 32-bit C `int`. */
  type Data = x: int | -0x8000_0000 <= x < 0x8000_0000

  /** The `uint16_t` that both `stack_create` and `queue_create` take as capacity. */
  type Uint16 = x: int | 0 <= x < 0x1_0000
}
