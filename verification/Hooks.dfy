// Where a program can be attached (src/daemon/configs.hpp:37).
module Hooks {

  datatype HookType = TC | XDP_GENERIC | XDP_NATIVE | XDP_OFFLOAD | KProbe | UNKNOWN
}
