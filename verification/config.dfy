/** The immutable gameplay parameters (a ScriptableObject asset in the game),
    shared read-only by every component. */
module Config {

  datatype GameplayConfig = GameplayConfig(
    openDistance: real,
    initialPlayerRadius: real,
    minCriticalRadius: real,
    initialReservePercent: real,
    playerMoveSpeed: real,
    chargeRate: real,
    maxProjectileRadius: real,
    minProjectileRadius: real,
    transferK: real,
    infectionMultiplier: real,
    obstacleLayer: bv32,
    advanceSpeed: real,
    doorOpenDistance: real,
    mutation: real,
    projectileSpeed: real,
    explosionMultiplier: real)

  /** The asset's default values. A fresh LayerMask selects no layer. */
  const Defaults := GameplayConfig(
    openDistance := 5.0,
    initialPlayerRadius := 0.6,
    minCriticalRadius := 0.09,
    initialReservePercent := 0.2,
    playerMoveSpeed := 2.0,
    chargeRate := 0.6,
    maxProjectileRadius := 1.2,
    minProjectileRadius := 0.08,
    transferK := 1.0,
    infectionMultiplier := 1.1,
    obstacleLayer := 0,
    advanceSpeed := 2.0,
    doorOpenDistance := 5.0,
    mutation := 0.05,
    projectileSpeed := 12.0,
    explosionMultiplier := 2.0)

  /** A LayerMask test: bit `layer` of `mask` is set. Unity layers are 0..31. */
  predicate InMask(mask: bv32, layer: nat)
    requires layer < 32
  {
    mask & (1 as bv32 << layer) != 0
  }
}
