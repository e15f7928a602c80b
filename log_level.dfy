/** `Microsoft.Extensions.Logging.LogLevel`: a C# enum over `int`. A value of
    the enum type may hold any 32-bit integer, not only the seven named
    members, and levels compare by their underlying integers. */
module LogLevel {

  newtype Level = x: int | -0x8000_0000 <= x < 0x8000_0000

  const Trace: Level := 0
  const Debug: Level := 1
  const Information: Level := 2
  const Warning: Level := 3
  const Error: Level := 4
  const Critical: Level := 5
  const None: Level := 6

  /** One of the seven named members. */
  predicate IsDefined(level: Level) {
    Trace <= level <= None
  }
}
